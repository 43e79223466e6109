/**
 * Ordering of query results (order_by): an insertion sort under any
 * total preorder, proved to return a sorted permutation of its input.
 */
module Sorting {
  import opened Tables

  /** `le` is total and transitive: a comparison order_by can sort by. */
  ghost predicate TotalPreorder<T(!new)>(le: (T, T) -> bool) {
    && (forall a, b :: le(a, b) || le(b, a))
    && (forall a, b, c :: le(a, b) && le(b, c) ==> le(a, c))
  }

  predicate Sorted<T>(s: seq<T>, le: (T, T) -> bool) {
    forall i, j :: 0 <= i < j < |s| ==> le(s[i], s[j])
  }

  /** A head that precedes every element of a sorted tail gives a sorted sequence. */
  lemma ConsSorted<T>(h: T, s: seq<T>, le: (T, T) -> bool)
    requires Sorted(s, le)
    requires forall y :: y in s ==> le(h, y)
    ensures Sorted([h] + s, le)
  {
    var r := [h] + s;
    forall i, j | 0 <= i < j < |r| ensures le(r[i], r[j]) {
      if i == 0 { assert r[j] == s[j - 1]; } else { assert r[i] == s[i - 1] && r[j] == s[j - 1]; }
    }
  }

  /** What precedes the head of a sorted sequence precedes all of it. */
  lemma BeforeHead<T(!new)>(x: T, s: seq<T>, le: (T, T) -> bool)
    requires TotalPreorder(le) && Sorted(s, le) && s != [] && le(x, s[0])
    ensures forall y :: y in s ==> le(x, y)
  {
    forall y | y in s ensures le(x, y) {
      var j :| 0 <= j < |s| && s[j] == y;
      if j > 0 { assert le(s[0], s[j]); }
    }
  }

  /** The head of a sorted sequence precedes every element of its tail. */
  lemma HeadFirst<T>(s: seq<T>, le: (T, T) -> bool)
    requires Sorted(s, le) && s != []
    ensures forall y :: y in s[1..] ==> le(s[0], y)
  {
    forall y | y in s[1..] ensures le(s[0], y) {
      var j :| 0 <= j < |s[1..]| && s[1..][j] == y;
      assert s[j + 1] == y;
    }
  }

  /** What precedes `x` and every element of `t` precedes every element of a permutation of them. */
  lemma PrecedesAll<T>(h: T, x: T, t: seq<T>, r: seq<T>, le: (T, T) -> bool)
    requires le(h, x) && forall y :: y in t ==> le(h, y)
    requires multiset(r) == multiset(t) + multiset{x}
    ensures forall y :: y in r ==> le(h, y)
  {
    forall y | y in r ensures le(h, y) {
      assert y in multiset(r);
      assert y == x || y in multiset(t);
    }
  }

  /** Places `x` before the first element it does not follow. */
  function Insert<T(!new)>(x: T, s: seq<T>, le: (T, T) -> bool): (r: seq<T>)
    requires TotalPreorder(le) && Sorted(s, le)
    ensures Sorted(r, le)
    ensures multiset(r) == multiset(s) + multiset{x}
    ensures |r| == |s| + 1
  {
    if s == [] then [x]
    else if le(x, s[0]) then
      BeforeHead(x, s, le);
      ConsSorted(x, s, le);
      [x] + s
    else
      var rest := Insert(x, s[1..], le);
      HeadFirst(s, le);
      PrecedesAll(s[0], x, s[1..], rest, le);
      ConsSorted(s[0], rest, le);
      assert s == [s[0]] + s[1..];
      [s[0]] + rest
  }

  /** `s` sorted by `le` (insertion sort). */
  function SortBy<T(!new)>(s: seq<T>, le: (T, T) -> bool): (r: seq<T>)
    requires TotalPreorder(le)
    ensures Sorted(r, le)
    ensures multiset(r) == multiset(s)
    ensures |r| == |s|
  {
    if s == [] then []
    else
      assert s == [s[0]] + s[1..];
      Insert(s[0], SortBy(s[1..], le), le)
  }

  /** The total of `f` over `s`. */
  function SumBy<T>(s: seq<T>, f: T -> int): int {
    if s == [] then 0 else f(s[0]) + SumBy(s[1..], f)
  }

  lemma {:induction false} InsertSum<T(!new)>(x: T, s: seq<T>, le: (T, T) -> bool, f: T -> int)
    requires TotalPreorder(le) && Sorted(s, le)
    ensures SumBy(Insert(x, s, le), f) == f(x) + SumBy(s, f)
  {
    if s != [] && !le(x, s[0]) {
      InsertSum(x, s[1..], le, f);
      var r := Insert(x, s, le);
      assert r[1..] == Insert(x, s[1..], le);
    } else if s != [] {
      assert ([x] + s)[1..] == s;
    }
  }

  /** Sorting changes no total. */
  lemma {:induction false} SortBySum<T(!new)>(s: seq<T>, le: (T, T) -> bool, f: T -> int)
    requires TotalPreorder(le)
    ensures SumBy(SortBy(s, le), f) == SumBy(s, f)
  {
    if s != [] {
      SortBySum(s[1..], le, f);
      InsertSum(s[0], SortBy(s[1..], le), le, f);
    }
  }

  /** The first `k` elements of `s` (a queryset slice [:k]). */
  function Take<T>(s: seq<T>, k: nat): (r: seq<T>)
    ensures |r| == if |s| < k then |s| else k
    ensures r <= s
  {
    if |s| < k then s else s[..k]
  }

  /** No element occurs twice. */
  predicate Unique<T(==)>(s: seq<T>) {
    forall i, j :: 0 <= i < j < |s| ==> s[i] != s[j]
  }

  lemma {:induction false} UniqueMultiplicity<T>(s: seq<T>, x: T)
    requires Unique(s)
    ensures multiset(s)[x] <= 1
  {
    if s != [] {
      assert s == [s[0]] + s[1..];
      assert Unique(s[1..]) by {
        forall i, j | 0 <= i < j < |s[1..]| ensures s[1..][i] != s[1..][j] {
          assert s[1..][i] == s[i + 1] && s[1..][j] == s[j + 1];
        }
      }
      UniqueMultiplicity(s[1..], x);
      if s[0] == x {
        assert x !in s[1..] by {
          forall k | 0 <= k < |s[1..]| ensures s[1..][k] != x {
            assert s[1..][k] == s[k + 1];
          }
        }
      }
    }
  }

  /** A permutation of a sequence without repetitions has none either. */
  lemma PermutationUnique<T>(a: seq<T>, b: seq<T>)
    requires multiset(a) == multiset(b) && Unique(a)
    ensures Unique(b)
  {
    forall i, j | 0 <= i < j < |b| ensures b[i] != b[j] {
      if b[i] == b[j] {
        var x := b[i];
        assert b == b[..j] + b[j..];
        assert x in b[..j] && x in b[j..];
        assert multiset(b)[x] == multiset(b[..j])[x] + multiset(b[j..])[x];
        UniqueMultiplicity(a, x);
        assert false;
      }
    }
  }

  /**
   * The first `k` elements of a sorted sequence are its top k: anything left
   * out comes after everything kept.
   */
  lemma TakeTop<T>(s: seq<T>, le: (T, T) -> bool, k: nat, x: T, y: T)
    requires Sorted(s, le)
    requires x in s && x !in Take(s, k) && y in Take(s, k)
    ensures le(y, x)
  {
    var a :| 0 <= a < |s| && s[a] == x;
    var t := Take(s, k);
    var b :| 0 <= b < |t| && t[b] == y;
    assert s[b] == y;
    assert forall p :: 0 <= p < |t| ==> t[p] == s[p];
  }

  /** A permutation has the same members. */
  lemma PermutationMembers<T>(a: seq<T>, b: seq<T>)
    requires multiset(a) == multiset(b)
    ensures forall x :: x in a <==> x in b
  {
    forall x ensures x in a <==> x in b {
      assert x in a <==> x in multiset(a);
      assert x in b <==> x in multiset(b);
    }
  }

  /**
   * A permutation of a sequence whose elements differ in `key` has elements
   * that differ in `key` too.
   */
  lemma PermutationDistinctBy<T, K>(s: seq<T>, r: seq<T>, key: T -> K)
    requires multiset(s) == multiset(r) && DistinctBy(s, key)
    ensures DistinctBy(r, key)
  {
    assert Unique(s);
    PermutationUnique(s, r);
    PermutationMembers(s, r);
    forall i, j | 0 <= i < j < |r| ensures key(r[i]) != key(r[j]) {
      assert r[i] in s && r[j] in s;
      var a :| 0 <= a < |s| && s[a] == r[i];
      var b :| 0 <= b < |s| && s[b] == r[j];
    }
  }
}
