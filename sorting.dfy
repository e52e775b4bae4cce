/** Ordering keys, a stable insertion sort by key, filtering, limits and sums over sequences:
    the model of `ORDER BY`, `WHERE`, `LIMIT` and `SUM`/`AVG`, and of `Array.prototype.sort`. */
module Sorting {
  import opened Common

  /** A sort key: a number, or a text compared character by character (SQLite's BINARY collation). */
  datatype Key = IntKey(n: int) | StrKey(s: string)

  /** Lexicographic order on strings by code point. */
  predicate StrLe(a: string, b: string)
    decreases |a|
  {
    a == [] || (b != [] && (a[0] < b[0] || (a[0] == b[0] && StrLe(a[1..], b[1..]))))
  }

  lemma {:induction false} StrLeTotal(a: string, b: string)
    ensures StrLe(a, b) || StrLe(b, a)
    decreases |a|
  {
    if a != [] && b != [] && a[0] == b[0] {
      StrLeTotal(a[1..], b[1..]);
    }
  }

  lemma {:induction false} StrLeReflexive(a: string)
    ensures StrLe(a, a)
    decreases |a|
  {
    if a != [] { StrLeReflexive(a[1..]); }
  }

  lemma {:induction false} StrLeTransitive(a: string, b: string, c: string)
    requires StrLe(a, b) && StrLe(b, c)
    ensures StrLe(a, c)
    decreases |a|
  {
    if a != [] && a[0] == b[0] && b[0] == c[0] {
      StrLeTransitive(a[1..], b[1..], c[1..]);
    }
  }

  lemma {:induction false} StrLeAntisymmetric(a: string, b: string)
    requires StrLe(a, b) && StrLe(b, a)
    ensures a == b
    decreases |a|
  {
    if a != [] {
      StrLeAntisymmetric(a[1..], b[1..]);
      assert a == [a[0]] + a[1..] && b == [b[0]] + b[1..];
    }
  }

  predicate KeyLe(a: Key, b: Key) {
    match (a, b)
    case (IntKey(x), IntKey(y)) => x <= y
    case (StrKey(x), StrKey(y)) => StrLe(x, y)
    case (IntKey(_), StrKey(_)) => true
    case (StrKey(_), IntKey(_)) => false
  }

  lemma KeyLeTotal(a: Key, b: Key)
    ensures KeyLe(a, b) || KeyLe(b, a)
  {
    if a.StrKey? && b.StrKey? { StrLeTotal(a.s, b.s); }
  }

  lemma KeyLeTransitive(a: Key, b: Key, c: Key)
    requires KeyLe(a, b) && KeyLe(b, c)
    ensures KeyLe(a, c)
  {
    if a.StrKey? && b.StrKey? && c.StrKey? { StrLeTransitive(a.s, b.s, c.s); }
  }

  /** `a` may come before `b` in an ascending (or descending) listing. */
  predicate InOrder(a: Key, b: Key, descending: bool) {
    if descending then KeyLe(b, a) else KeyLe(a, b)
  }

  lemma InOrderTotal(a: Key, b: Key, descending: bool)
    ensures InOrder(a, b, descending) || InOrder(b, a, descending)
  {
    KeyLeTotal(a, b);
  }

  lemma InOrderTransitive(a: Key, b: Key, c: Key, descending: bool)
    requires InOrder(a, b, descending) && InOrder(b, c, descending)
    ensures InOrder(a, c, descending)
  {
    if descending { KeyLeTransitive(c, b, a); } else { KeyLeTransitive(a, b, c); }
  }

  predicate SortedBy<T>(s: seq<T>, key: T -> Key, descending: bool) {
    forall i, j :: 0 <= i < j < |s| ==> InOrder(key(s[i]), key(s[j]), descending)
  }

  /** Insert `x` before the first element it may precede. */
  function Insert<T>(x: T, s: seq<T>, key: T -> Key, descending: bool): (r: seq<T>)
    requires SortedBy(s, key, descending)
    ensures SortedBy(r, key, descending)
    ensures multiset(r) == multiset(s) + multiset{x}
  {
    if s == [] || InOrder(key(x), key(s[0]), descending) then
      var r := [x] + s;
      assert SortedBy(r, key, descending) by {
        forall i, j | 0 <= i < j < |r| ensures InOrder(key(r[i]), key(r[j]), descending) {
          if i == 0 && j > 1 { InOrderTransitive(key(x), key(s[0]), key(r[j]), descending); }
        }
      }
      r
    else
      InOrderTotal(key(x), key(s[0]), descending);
      var rest := Insert(x, s[1..], key, descending);
      assert s == [s[0]] + s[1..];
      assert SortedBy([s[0]] + rest, key, descending) by {
        forall j | 0 <= j < |rest| ensures InOrder(key(s[0]), key(rest[j]), descending) {
          assert rest[j] in multiset(rest);
          if rest[j] != x {
            assert rest[j] in multiset(s[1..]);
            var k :| 0 <= k < |s[1..]| && s[1..][k] == rest[j];
            assert s[k + 1] == rest[j];
          }
        }
      }
      [s[0]] + rest
  }

  /** Two elements that both pass the filter are both kept, in order. */
  lemma FilterPairKept<T(!new)>(a: T, b: T, p: T -> bool)
    requires p(a) && p(b)
    ensures Filter([a, b], p) == [a, b]
  {
    assert [a, b][1..] == [b];
    assert [b][1..] == [];
  }

  /** Two elements with the same key keep their order. */
  lemma SortPairTie<T>(a: T, b: T, key: T -> Key, descending: bool)
    requires key(a) == key(b)
    ensures SortBy([a, b], key, descending) == [a, b]
  {
    KeyLeTotal(key(a), key(a));
    assert [b][1..] == [];
    assert SortBy([b], key, descending) == [b];
    assert [a, b][1..] == [b];
  }

  /** A stable insertion sort: the result is a permutation of `s`, ordered by `key`. */
  function SortBy<T>(s: seq<T>, key: T -> Key, descending: bool): (r: seq<T>)
    ensures SortedBy(r, key, descending)
    ensures multiset(r) == multiset(s)
  {
    if s == [] then []
    else
      assert s == [s[0]] + s[1..];
      Insert(s[0], SortBy(s[1..], key, descending), key, descending)
  }

  /** The rows of `s` that satisfy `p`, in their original order (`WHERE`, `Array.prototype.filter`). */
  function Filter<T(!new)>(s: seq<T>, p: T -> bool): (r: seq<T>)
    ensures |r| <= |s|
    ensures forall x :: x in r <==> x in s && p(x)
    ensures forall x :: multiset(r)[x] == if p(x) then multiset(s)[x] else 0
  {
    if s == [] then []
    else
      assert s == [s[0]] + s[1..];
      (if p(s[0]) then [s[0]] else []) + Filter(s[1..], p)
  }

  /** In a sequence related pairwise from earlier to later, the head is related to every later element. */
  lemma HeadRelatesToRest<T>(s: seq<T>, rel: (T, T) -> bool, x: T)
    requires forall i, j :: 0 <= i < j < |s| ==> rel(s[i], s[j])
    requires s != [] && x in s[1..]
    ensures rel(s[0], x)
  {
    var k :| 0 <= k < |s[1..]| && s[1..][k] == x;
    assert s[k + 1] == x;
  }

  /** An element related to every element of a pairwise-related sequence can go in front of it. */
  lemma ConsKeepsPairwise<T>(x: T, tail: seq<T>, rel: (T, T) -> bool)
    requires forall i, j :: 0 <= i < j < |tail| ==> rel(tail[i], tail[j])
    requires forall y :: y in tail ==> rel(x, y)
    ensures forall i, j :: 0 <= i < j < |[x] + tail| ==> rel(([x] + tail)[i], ([x] + tail)[j])
  {
    var r := [x] + tail;
    forall i, j | 0 <= i < j < |r| ensures rel(r[i], r[j]) {
      assert r[j] == tail[j - 1];
      if i > 0 {
        assert r[i] == tail[i - 1];
      } else {
        assert tail[j - 1] in tail;
      }
    }
  }

  /** Filtering keeps every pairwise relation the input had between earlier and later elements. */
  lemma {:induction false} FilterKeepsPairwise<T(!new)>(s: seq<T>, p: T -> bool, rel: (T, T) -> bool)
    requires forall i, j :: 0 <= i < j < |s| ==> rel(s[i], s[j])
    ensures forall i, j :: 0 <= i < j < |Filter(s, p)| ==> rel(Filter(s, p)[i], Filter(s, p)[j])
  {
    if s != [] {
      var tail := Filter(s[1..], p);
      assert forall i, j :: 0 <= i < j < |s[1..]| ==> rel(s[1..][i], s[1..][j]) by {
        forall i, j | 0 <= i < j < |s[1..]| ensures rel(s[1..][i], s[1..][j]) {
          assert s[1..][i] == s[i + 1] && s[1..][j] == s[j + 1];
        }
      }
      FilterKeepsPairwise(s[1..], p, rel);
      if p(s[0]) {
        assert Filter(s, p) == [s[0]] + tail;
        forall y | y in tail ensures rel(s[0], y) {
          HeadRelatesToRest(s, rel, y);
        }
        ConsKeepsPairwise(s[0], tail, rel);
      } else {
        assert Filter(s, p) == tail;
      }
    }
  }

  /** The first element satisfying `p`, in sequence order (`getFirst` over a table scan). */
  function FindFirst<T>(s: seq<T>, p: T -> bool): (r: Option<T>)
    ensures r.None? <==> forall i :: 0 <= i < |s| ==> !p(s[i])
    ensures r.Some? ==> exists i :: 0 <= i < |s| && s[i] == r.value && p(s[i])
                                    && forall j :: 0 <= j < i ==> !p(s[j])
  {
    if s == [] then None
    else if p(s[0]) then Some(s[0])
    else
      var r := FindFirst(s[1..], p);
      assert r.Some? ==> exists i :: 0 <= i < |s| && s[i] == r.value && p(s[i])
                                     && forall j :: 0 <= j < i ==> !p(s[j]) by {
        if r.Some? {
          var i :| 0 <= i < |s[1..]| && s[1..][i] == r.value && p(s[1..][i])
                   && forall j :: 0 <= j < i ==> !p(s[1..][j]);
          assert s[i + 1] == r.value;
          forall j | 0 <= j < i + 1 ensures !p(s[j]) {
            if j > 0 { assert s[j] == s[1..][j - 1]; }
          }
        }
      }
      assert r.None? ==> forall i :: 0 <= i < |s| ==> !p(s[i]) by {
        if r.None? {
          forall i | 0 <= i < |s| ensures !p(s[i]) {
            if i > 0 { assert s[i] == s[1..][i - 1]; }
          }
        }
      }
      r
  }

  /** SQLite's `LIMIT n`: a negative limit means no limit. */
  function Limit<T>(s: seq<T>, n: int): (r: seq<T>)
    ensures |r| == if 0 <= n < |s| then n else |s|
    ensures r == s[..|r|]
  {
    if 0 <= n < |s| then s[..n] else s
  }

  /** `Array.prototype.map`. */
  function MapSeq<T, U>(s: seq<T>, f: T -> U): (r: seq<U>)
    ensures |r| == |s| && forall i :: 0 <= i < |s| ==> r[i] == f(s[i])
  {
    if s == [] then [] else [f(s[0])] + MapSeq(s[1..], f)
  }

  lemma {:induction false} MapSeqAppend<T, U>(a: seq<T>, b: seq<T>, f: T -> U)
    ensures MapSeq(a + b, f) == MapSeq(a, f) + MapSeq(b, f)
  {
    if a != [] {
      assert (a + b)[1..] == a[1..] + b;
      MapSeqAppend(a[1..], b, f);
    } else {
      assert a + b == b;
    }
  }

  /** Where the first element of `a` sits in its permutation `b`, and what is left of both. */
  lemma PermutationSplit<T>(a: seq<T>, b: seq<T>) returns (k: int)
    requires multiset(a) == multiset(b) && a != []
    ensures 0 <= k < |b| && b[k] == a[0]
    ensures multiset(a[1..]) == multiset(b[..k] + b[k + 1..])
  {
    assert a[0] in multiset(b);
    k :| 0 <= k < |b| && b[k] == a[0];
    var rest := b[..k] + b[k + 1..];
    assert b == b[..k] + [b[k]] + b[k + 1..];
    assert a == [a[0]] + a[1..];
    assert multiset(b) == multiset(rest) + multiset{b[k]};
    assert multiset(a) == multiset(a[1..]) + multiset{a[0]};
    assert multiset(a[1..]) == multiset(a) - multiset{a[0]};
    assert multiset(rest) == multiset(b) - multiset{b[k]};
  }

  lemma MapSeqSplit<T, U>(b: seq<T>, k: int, f: T -> U)
    requires 0 <= k < |b|
    ensures MapSeq(b, f) == MapSeq(b[..k], f) + [f(b[k])] + MapSeq(b[k + 1..], f)
  {
    var l, r := MapSeq(b[..k], f), MapSeq(b[k + 1..], f);
    var rhs := l + [f(b[k])] + r;
    assert |rhs| == |b|;
    forall i | 0 <= i < |b| ensures MapSeq(b, f)[i] == rhs[i] {
      if i < k { assert rhs[i] == l[i]; }
      else if i > k { assert rhs[i] == r[i - k - 1]; }
    }
  }

  /** Mapping two permutations of each other gives two permutations of each other. */
  lemma {:induction false} MapSeqPermutation<T, U>(a: seq<T>, b: seq<T>, f: T -> U)
    requires multiset(a) == multiset(b)
    ensures multiset(MapSeq(a, f)) == multiset(MapSeq(b, f))
    decreases |a|
  {
    if a != [] {
      var k := PermutationSplit(a, b);
      var rest := b[..k] + b[k + 1..];
      MapSeqPermutation(a[1..], rest, f);
      var left, right := MapSeq(b[..k], f), MapSeq(b[k + 1..], f);
      MapSeqSplit(b, k, f);
      MapSeqAppend(b[..k], b[k + 1..], f);
      assert MapSeq(a, f) == [f(a[0])] + MapSeq(a[1..], f);
      assert multiset(MapSeq(b, f)) == multiset(left) + multiset{f(a[0])} + multiset(right);
    }
  }

  /** Filtering commutes with mapping when the two tests agree through the map. */
  lemma {:induction false} FilterMap<T(!new), U(!new)>(s: seq<T>, f: T -> U, p: U -> bool, q: T -> bool)
    requires forall x :: q(x) == p(f(x))
    ensures MapSeq(Filter(s, q), f) == Filter(MapSeq(s, f), p)
  {
    if s != [] {
      FilterMap(s[1..], f, p, q);
      assert MapSeq(s, f)[1..] == MapSeq(s[1..], f);
      assert MapSeq(s, f)[0] == f(s[0]);
      assert Filter(s, q) == (if q(s[0]) then [s[0]] else []) + Filter(s[1..], q);
      MapSeqAppend(if q(s[0]) then [s[0]] else [], Filter(s[1..], q), f);
    }
  }

  /** Mapping twice is mapping once with the composed function. */
  lemma MapSeqCompose<T, U, V>(s: seq<T>, f: T -> U, g: U -> V, h: T -> V)
    requires forall x :: h(x) == g(f(x))
    ensures MapSeq(MapSeq(s, f), g) == MapSeq(s, h)
  {
  }

  /** A test every element passes removes nothing. */
  lemma {:induction false} FilterAll<T(!new)>(s: seq<T>, p: T -> bool)
    requires forall i :: 0 <= i < |s| ==> p(s[i])
    ensures Filter(s, p) == s
  {
    if s != [] {
      FilterAll(s[1..], p);
      assert s == [s[0]] + s[1..];
    }
  }

  function SumBy<T>(s: seq<T>, f: T -> real): real {
    if s == [] then 0.0 else f(s[0]) + SumBy(s[1..], f)
  }

  lemma {:induction false} SumByAppend<T>(a: seq<T>, b: seq<T>, f: T -> real)
    ensures SumBy(a + b, f) == SumBy(a, f) + SumBy(b, f)
  {
    if a == [] {
      assert a + b == b;
    } else {
      assert (a + b)[0] == a[0];
      assert (a + b)[1..] == a[1..] + b;
      SumByAppend(a[1..], b, f);
    }
  }

  /** A sum does not depend on the order of its terms. */
  lemma {:induction false} SumByPermutation<T>(a: seq<T>, b: seq<T>, f: T -> real)
    requires multiset(a) == multiset(b)
    ensures SumBy(a, f) == SumBy(b, f)
    decreases |a|
  {
    if a != [] {
      var k := PermutationSplit(a, b);
      var rest := b[..k] + b[k + 1..];
      SumByPermutation(a[1..], rest, f);
      var tail := [b[k]] + b[k + 1..];
      assert b == b[..k] + tail;
      assert tail[0] == a[0] && tail[1..] == b[k + 1..];
      SumByAppend(b[..k], tail, f);
      SumByAppend(b[..k], b[k + 1..], f);
      calc {
        SumBy(b, f);
        SumBy(b[..k], f) + SumBy(tail, f);
        SumBy(b[..k], f) + f(a[0]) + SumBy(b[k + 1..], f);
        f(a[0]) + SumBy(rest, f);
        f(a[0]) + SumBy(a[1..], f);
        SumBy(a, f);
      }
    }
  }

  /** Summing after mapping is summing the composed function. */
  lemma {:induction false} SumByMap<T, U>(s: seq<T>, f: T -> U, g: U -> real, h: T -> real)
    requires forall x :: h(x) == g(f(x))
    ensures SumBy(MapSeq(s, f), g) == SumBy(s, h)
  {
    if s != [] {
      assert MapSeq(s, f)[1..] == MapSeq(s[1..], f);
      SumByMap(s[1..], f, g, h);
    }
  }
}
