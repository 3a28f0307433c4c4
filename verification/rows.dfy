/**
 * The handful of query operations the route handlers chain on a table:
 * keep the rows a predicate accepts, take exactly one row, take the first
 * row, order by a key newest first, and cap the number of rows.
 */
module Rows {
  import opened Wrappers

  /** The rows of `s` that satisfy `p`, in their original order. */
  function Filter<T(!new)>(s: seq<T>, p: T -> bool): (r: seq<T>)
    ensures |r| <= |s|
    ensures forall x :: x in r <==> x in s && p(x)
    ensures forall x :: multiset(r)[x] == if p(x) then multiset(s)[x] else 0
  {
    if s == [] then []
    else
      var last := s[|s| - 1];
      var rest := Filter(s[..|s| - 1], p);
      assert s == s[..|s| - 1] + [last];
      if p(last) then rest + [last] else rest
  }

  /** Filtering a row appended at the end filters the rows before it and then that row. */
  lemma FilterAppend<T(!new)>(s: seq<T>, x: T, p: T -> bool)
    ensures Filter(s + [x], p) == Filter(s, p) + (if p(x) then [x] else [])
  {
    assert (s + [x])[..|s|] == s;
  }

  /** No two rows of `s` both satisfy `p`: `p` tests a key the table keeps unique. */
  predicate AtMostOne<T>(s: seq<T>, p: T -> bool) {
    forall i, j :: 0 <= i < j < |s| && p(s[i]) ==> !p(s[j])
  }

  /** When at most one row satisfies `p`, filtering by it keeps at most one row. */
  lemma {:induction false} AtMostOneMatch<T(!new)>(s: seq<T>, p: T -> bool)
    requires AtMostOne(s, p)
    ensures |Filter(s, p)| <= 1
  {
    if s != [] {
      var init, last := s[..|s| - 1], s[|s| - 1];
      assert AtMostOne(init, p) by {
        forall i, j | 0 <= i < j < |init| && p(init[i]) ensures !p(init[j]) {
          assert init[i] == s[i] && init[j] == s[j];
        }
      }
      AtMostOneMatch(init, p);
    }
  }

  /** `.single()`: the row when exactly one row matched, otherwise nothing. */
  function Single<T>(s: seq<T>): (r: Option<T>)
    ensures r.Some? <==> |s| == 1
    ensures r.Some? ==> r.value in s
  {
    if |s| == 1 then Some(s[0]) else None
  }

  /**
   * `.eq(key, k).single()` on a key no two rows share: a row comes back
   * exactly when a row with that key is stored.
   */
  lemma UniqueMatch<T(!new)>(s: seq<T>, p: T -> bool)
    ensures AtMostOne(s, p) ==> (Single(Filter(s, p)).Some? <==> exists x :: x in s && p(x))
  {
    if AtMostOne(s, p) {
      AtMostOneMatch(s, p);
      if exists x :: x in s && p(x) {
        var x :| x in s && p(x);
        assert x in Filter(s, p);
      }
    }
  }

  /** `.limit(1).single()`: the first matching row, if any. */
  function First<T>(s: seq<T>): (r: Option<T>)
    ensures r.Some? <==> s != []
    ensures r.Some? ==> r.value in s
  {
    if s == [] then None else Some(s[0])
  }

  /** `.limit(n)`: at most `n` rows, taken from the front. */
  function Take<T>(s: seq<T>, n: nat): (r: seq<T>)
    ensures |r| == if n < |s| then n else |s|
    ensures r <= s
  {
    if n < |s| then s[..n] else s
  }

  predicate Descending<T>(s: seq<T>, key: T -> int) {
    forall i, j :: 0 <= i < j < |s| ==> key(s[i]) >= key(s[j])
  }

  /** In a descending sequence, every row of a prefix has a key at least that of every row after it. */
  lemma PrefixDominates<T>(s: seq<T>, n: nat, key: T -> int, x: T, y: T)
    requires n <= |s| && Descending(s, key) && x in s[..n] && y in s[n..]
    ensures key(y) <= key(x)
  {
    var i :| 0 <= i < n && s[..n][i] == x;
    var j :| 0 <= j < |s| - n && s[n..][j] == y;
    assert s[i] == x && s[n + j] == y;
  }

  /** Cutting a descending sequence after `n` rows leaves nothing behind the cut with a larger key than a row before it. */
  lemma CutDominates<T>(s: seq<T>, n: nat, key: T -> int)
    requires n <= |s| && Descending(s, key)
    ensures forall x, y :: x in s[..n] && y in multiset(s) - multiset(s[..n]) ==> key(y) <= key(x)
  {
    assert s == s[..n] + s[n..];
    forall x, y | x in s[..n] && y in multiset(s) - multiset(s[..n]) ensures key(y) <= key(x) {
      assert y in multiset(s[n..]);
      PrefixDominates(s, n, key, x, y);
    }
  }

  /** In a descending sequence the first element has the largest key. */
  lemma HeadDominates<T>(s: seq<T>, key: T -> int, y: T)
    requires s != [] && Descending(s, key) && y in s[1..]
    ensures key(s[0]) >= key(y)
  {
    var j :| 0 <= j < |s[1..]| && s[1..][j] == y;
    assert s[j + 1] == y;
  }

  /** A head no smaller than every row it is put in front of keeps the sequence descending. */
  lemma HeadStaysFirst<T>(s: seq<T>, x: T, rest: seq<T>, key: T -> int)
    requires s != [] && Descending(s, key) && key(x) < key(s[0])
    requires Descending(rest, key) && multiset(rest) == multiset(s[1..]) + multiset{x}
    ensures Descending([s[0]] + rest, key)
  {
    forall j | 0 <= j < |rest| ensures key(s[0]) >= key(rest[j]) {
      var y := rest[j];
      assert y in multiset(rest);
      if y != x {
        assert y in multiset(s[1..]);
        HeadDominates(s, key, y);
      }
    }
  }

  function InsertDescending<T>(x: T, s: seq<T>, key: T -> int): (r: seq<T>)
    requires Descending(s, key)
    ensures Descending(r, key)
    ensures multiset(r) == multiset(s) + multiset{x}
  {
    if s == [] || key(x) >= key(s[0]) then
      [x] + s
    else
      var rest := InsertDescending(x, s[1..], key);
      assert s == [s[0]] + s[1..];
      HeadStaysFirst(s, x, rest, key);
      [s[0]] + rest
  }

  /** `.order(key, { ascending: false })`: the same rows, largest key first. */
  function NewestFirst<T>(s: seq<T>, key: T -> int): (r: seq<T>)
    ensures Descending(r, key)
    ensures multiset(r) == multiset(s)
  {
    if s == [] then []
    else
      assert s == [s[0]] + s[1..];
      InsertDescending(s[0], NewestFirst(s[1..], key), key)
  }
}
