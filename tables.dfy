/**
 * In-memory relational tables: every row carries its primary key `id`.
 * The generic operations here (lookup, filter, per-row update) are what the
 * ORM does for each model; uniqueness constraints are stated with DistinctBy.
 */
module Tables {

  type Id = nat

  datatype Option<T> = None | Some(value: T)

  datatype Result<T, E> = Ok(value: T) | Err(error: E)

  /** One stored row: its primary key and its field values. */
  datatype Row<T> = Row(id: Id, val: T)

  function RowId<T>(r: Row<T>): Id { r.id }

  /** No two positions of `s` agree on `key` (a UNIQUE constraint). */
  predicate DistinctBy<T, K(==)>(s: seq<T>, key: T -> K) {
    forall i, j :: 0 <= i < j < |s| ==> key(s[i]) != key(s[j])
  }

  /** The values `key` takes on `s`. */
  function KeySet<T, K>(s: seq<T>, key: T -> K): set<K> {
    set i | 0 <= i < |s| :: key(s[i])
  }

  /** The primary keys present in a table. */
  function Ids<T>(t: seq<Row<T>>): set<Id> {
    KeySet(t, RowId)
  }

  /** Primary keys are unique and all below the next fresh id. */
  predicate Keyed<T>(t: seq<Row<T>>, next: Id) {
    && DistinctBy(t, RowId)
    && forall i :: 0 <= i < |t| ==> t[i].id < next
  }

  /** The rows of `s` that satisfy `p`, in their original order. */
  function Filter<T(!new)>(s: seq<T>, p: T -> bool): (r: seq<T>)
    ensures |r| <= |s|
    ensures forall x :: x in r <==> x in s && p(x)
  {
    if s == [] then [] else (if p(s[0]) then [s[0]] else []) + Filter(s[1..], p)
  }

  /** Filter keeps each row that satisfies `p` exactly as often as `s` holds it, and no other row. */
  lemma {:induction false} FilterCounts<T(!new)>(s: seq<T>, p: T -> bool)
    ensures forall x :: multiset(Filter(s, p))[x] == if p(x) then multiset(s)[x] else 0
  {
    if s != [] {
      assert s == [s[0]] + s[1..];
      FilterCounts(s[1..], p);
    }
  }

  /** The value stored under primary key `id`, if any. */
  function Get<T>(t: seq<Row<T>>, id: Id): (r: Option<T>)
    ensures r.Some? <==> id in Ids(t)
    ensures r.Some? ==> Row(id, r.value) in t
  {
    if t == [] then None
    else if t[0].id == id then Some(t[0].val)
    else Get(t[1..], id)
  }

  /** The first row whose `key` is `k`, if any (the lookup half of get_or_create). */
  function FindBy<T, K(==)>(t: seq<Row<T>>, key: Row<T> -> K, k: K): (r: Option<Row<T>>)
    ensures r.None? <==> k !in KeySet(t, key)
    ensures r.Some? ==> r.value in t && key(r.value) == k
  {
    if t == [] then None
    else if key(t[0]) == k then Some(t[0])
    else FindBy(t[1..], key, k)
  }

  /** Applies `f` to the value of every row, keeping ids and order. */
  function MapVals<T, U>(t: seq<Row<T>>, f: T -> U): (r: seq<Row<U>>)
    ensures |r| == |t|
    ensures forall i :: 0 <= i < |t| ==> r[i] == Row(t[i].id, f(t[i].val))
  {
    seq(|t|, i requires 0 <= i < |t| => Row(t[i].id, f(t[i].val)))
  }

  /** Under unique primary keys, looking up the id of a stored row finds that row's value. */
  lemma GetFinds<T>(t: seq<Row<T>>, id: Id, v: T)
    requires DistinctBy(t, RowId) && Row(id, v) in t
    ensures Get(t, id) == Some(v)
  {
    var i :| 0 <= i < |t| && t[i] == Row(id, v);
    assert RowId(t[i]) == id;
    var g := Get(t, id).value;
    var j :| 0 <= j < |t| && t[j] == Row(id, g);
    assert i == j;
  }

  /** Prepending a row whose key is new keeps a UNIQUE constraint. */
  lemma ConsDistinctBy<T, K>(x: T, rest: seq<T>, key: T -> K)
    requires DistinctBy(rest, key)
    requires forall y :: y in rest ==> key(y) != key(x)
    ensures DistinctBy([x] + rest, key)
  {
    var r := [x] + rest;
    forall i, j | 0 <= i < j < |r| ensures key(r[i]) != key(r[j]) {
      assert r[j] == rest[j - 1] && rest[j - 1] in rest;
      if i > 0 {
        assert r[i] == rest[i - 1];
      }
    }
  }

  /** Filtering keeps a UNIQUE constraint: the kept rows are a subsequence. */
  lemma {:induction false} FilterDistinctBy<T(!new), K>(s: seq<T>, p: T -> bool, key: T -> K)
    requires DistinctBy(s, key)
    ensures DistinctBy(Filter(s, p), key)
  {
    if s != [] {
      var rest := Filter(s[1..], p);
      FilterDistinctBy(s[1..], p, key);
      if p(s[0]) {
        assert Filter(s, p) == [s[0]] + rest;
        forall y | y in rest ensures key(y) != key(s[0]) {
          assert y in s[1..];
          var k :| 0 <= k < |s[1..]| && s[1..][k] == y;
          assert s[k + 1] == y;
        }
        ConsDistinctBy(s[0], rest, key);
      } else {
        assert Filter(s, p) == rest;
      }
    }
  }

  /** Keyed (unique ids below the counter) survives any filter. */
  lemma FilterKeyed<T(!new)>(t: seq<Row<T>>, p: Row<T> -> bool, next: Id)
    requires Keyed(t, next)
    ensures Keyed(Filter(t, p), next)
  {
    FilterDistinctBy(t, p, RowId);
    var r := Filter(t, p);
    forall i | 0 <= i < |r| ensures r[i].id < next {
      assert r[i] in t;
    }
  }

  /** The table without the row(s) whose primary key is `id` (a DELETE by pk). */
  function RemoveId<T(!new)>(t: seq<Row<T>>, id: Id): (r: seq<Row<T>>)
    ensures forall x :: x in r <==> x in t && x.id != id
  {
    Filter(t, (x: Row<T>) => x.id != id)
  }

  /** The keys of the kept rows: exactly the keys of rows that pass `p`. */
  lemma FilterKeySet<T(!new), K>(s: seq<T>, p: T -> bool, key: T -> K)
    ensures KeySet(Filter(s, p), key) <= KeySet(s, key)
    ensures forall i :: 0 <= i < |s| && p(s[i]) ==> key(s[i]) in KeySet(Filter(s, p), key)
  {
    var r := Filter(s, p);
    forall k | k in KeySet(r, key) ensures k in KeySet(s, key) {
      var i :| 0 <= i < |r| && key(r[i]) == k;
      assert r[i] in s;
      var j :| 0 <= j < |s| && s[j] == r[i];
    }
    forall i | 0 <= i < |s| && p(s[i]) ensures key(s[i]) in KeySet(r, key) {
      assert s[i] in r;
      var j :| 0 <= j < |r| && r[j] == s[i];
    }
  }

  /** Deleting by primary key removes exactly that key from the table's ids. */
  lemma RemoveIdIds<T(!new)>(t: seq<Row<T>>, id: Id)
    ensures Ids(RemoveId(t, id)) == Ids(t) - {id}
  {
    var r := RemoveId(t, id);
    FilterKeySet(t, (x: Row<T>) => x.id != id, RowId);
    forall k | k in Ids(t) - {id} ensures k in Ids(r) {
      var i :| 0 <= i < |t| && t[i].id == k;
    }
  }

  /** Appending a row adds exactly its key. */
  lemma AppendKeySet<T, K>(s: seq<T>, x: T, key: T -> K)
    ensures KeySet(s + [x], key) == KeySet(s, key) + {key(x)}
  {
    var s' := s + [x];
    forall k | k in KeySet(s', key) ensures k in KeySet(s, key) + {key(x)} {
      var i :| 0 <= i < |s'| && key(s'[i]) == k;
      if i < |s| { assert s'[i] == s[i]; }
    }
    assert s'[|s|] == x;
    forall k | k in KeySet(s, key) ensures k in KeySet(s', key) {
      var i :| 0 <= i < |s| && key(s[i]) == k;
      assert s'[i] == s[i];
    }
  }

  /** Appending a row with a fresh id and a new key keeps Keyed and DistinctBy. */
  lemma AppendFresh<T, K>(t: seq<Row<T>>, x: Row<T>, next: Id, key: Row<T> -> K)
    requires Keyed(t, next) && DistinctBy(t, key)
    requires x.id == next && key(x) !in KeySet(t, key)
    ensures Keyed(t + [x], next + 1) && DistinctBy(t + [x], key)
    ensures Ids(t + [x]) == Ids(t) + {next}
  {
    var t' := t + [x];
    forall i, j | 0 <= i < j < |t'| ensures key(t'[i]) != key(t'[j]) && t'[i].id != t'[j].id {
      assert t'[i] == t[i];
      if j < |t| { assert t'[j] == t[j]; } else { assert key(t[i]) in KeySet(t, key); }
    }
    AppendKeySet(t, x, RowId);
  }

  /** The table with the value of row `id` replaced by `v` (an UPDATE by pk). */
  function Replace<T>(t: seq<Row<T>>, id: Id, v: T): (r: seq<Row<T>>)
    ensures |r| == |t|
    ensures forall i :: 0 <= i < |t| ==> r[i] == if t[i].id == id then Row(id, v) else t[i]
  {
    seq(|t|, i requires 0 <= i < |t| => if t[i].id == id then Row(id, v) else t[i])
  }

  /** An UPDATE by pk keeps every id in place. */
  lemma ReplaceKeyed<T>(t: seq<Row<T>>, id: Id, v: T, next: Id)
    requires Keyed(t, next)
    ensures Keyed(Replace(t, id, v), next)
    ensures Ids(Replace(t, id, v)) == Ids(t)
  {
    var r := Replace(t, id, v);
    assert forall i :: 0 <= i < |t| ==> r[i].id == t[i].id;
    assert Ids(r) == Ids(t) by {
      forall k | k in Ids(t) ensures k in Ids(r) {
        var i :| 0 <= i < |t| && t[i].id == k;
        assert r[i].id == k;
      }
    }
  }

  /** Filtering out exactly the rows whose key is `k` removes `k` from the key set. */
  lemma FilterOutKey<T(!new), K>(s: seq<T>, p: T -> bool, key: T -> K, k: K)
    requires forall i :: 0 <= i < |s| ==> (p(s[i]) <==> key(s[i]) != k)
    ensures KeySet(Filter(s, p), key) == KeySet(s, key) - {k}
  {
    FilterKeySet(s, p, key);
    var r := Filter(s, p);
    forall x | x in KeySet(r, key) ensures x != k {
      var i :| 0 <= i < |r| && key(r[i]) == x;
      assert r[i] in s;
    }
  }

  /** A table given by its members: removing one id from its ids. */
  lemma MembersIds<T>(r: seq<Row<T>>, t: seq<Row<T>>, id: Id)
    requires forall x :: x in r <==> x in t && x.id != id
    ensures Ids(r) == Ids(t) - {id}
  {
    forall k | k in Ids(r) ensures k in Ids(t) - {id} {
      var i :| 0 <= i < |r| && r[i].id == k;
      assert r[i] in t;
    }
    forall k | k in Ids(t) - {id} ensures k in Ids(r) {
      var i :| 0 <= i < |t| && t[i].id == k;
      assert t[i] in r;
    }
  }
}
