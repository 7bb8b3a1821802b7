/**
 * The shape of the backend queries the components issue: `.eq(...)` is a
 * filter, `.order(col, { ascending: false })` a sort newest first and
 * `.limit(n)` a prefix. The backend evaluates them; this module states what
 * it returns.
 */
module Query {

  /** The rows of `s` that `keep` accepts, in their order. */
  function Filter<T(!new)>(s: seq<T>, keep: T -> bool): (r: seq<T>)
    ensures |r| <= |s|
    ensures forall x :: multiset(r)[x] == if keep(x) then multiset(s)[x] else 0
  {
    if s == [] then []
    else
      var rest := Filter(s[1..], keep);
      assert s == [s[0]] + s[1..];
      if keep(s[0]) then [s[0]] + rest else rest
  }

  /** Keys never increase along `s`. */
  predicate SortedDesc<T>(s: seq<T>, key: T -> int) {
    forall i, j :: 0 <= i < j < |s| ==> key(s[i]) >= key(s[j])
  }

  /** Puts `x` into the newest-first sequence `s` before the first row that is not newer. */
  function Insert<T(!new)>(x: T, s: seq<T>, key: T -> int): (r: seq<T>)
    requires SortedDesc(s, key)
    ensures SortedDesc(r, key)
    ensures multiset(r) == multiset(s) + multiset{x}
  {
    if s == [] || key(s[0]) <= key(x) then
      ConsSorted(x, s, key);
      [x] + s
    else
      var rest := Insert(x, s[1..], key);
      assert s == [s[0]] + s[1..];
      HeadDominates(s[0], x, s[1..], rest, key);
      ConsSorted(s[0], rest, key);
      [s[0]] + rest
  }

  /** A row no older than every row of a newest-first sequence can go in front of it. */
  lemma ConsSorted<T>(h: T, t: seq<T>, key: T -> int)
    requires SortedDesc(t, key)
    requires t == [] || key(h) >= key(t[0])
    ensures SortedDesc([h] + t, key)
  {
    var r := [h] + t;
    forall i, j | 0 <= i < j < |r| ensures key(r[i]) >= key(r[j]) {
      if i > 0 {
        assert r[i] == t[i - 1] && r[j] == t[j - 1];
      } else {
        assert r[j] == t[j - 1];
      }
    }
  }

  /** If `h` is no older than `x` and than every row of `t`, it is no older than any row of a permutation of `t` plus `x`. */
  lemma HeadDominates<T>(h: T, x: T, t: seq<T>, rest: seq<T>, key: T -> int)
    requires forall y :: y in t ==> key(h) >= key(y)
    requires key(h) >= key(x)
    requires multiset(rest) == multiset(t) + multiset{x}
    ensures rest == [] || key(h) >= key(rest[0])
  {
    if rest != [] {
      assert rest[0] in multiset(rest);
    }
  }

  /** `.order(key, { ascending: false })`: a newest-first permutation of `s`. */
  function SortDesc<T(!new)>(s: seq<T>, key: T -> int): (r: seq<T>)
    ensures SortedDesc(r, key)
    ensures multiset(r) == multiset(s)
  {
    if s == [] then []
    else
      assert s == [s[0]] + s[1..];
      Insert(s[0], SortDesc(s[1..], key), key)
  }

  /** `.limit(n)`: the first `n` rows, or all of them when there are fewer. */
  function Take<T>(s: seq<T>, n: nat): (r: seq<T>)
    ensures |r| == if |s| < n then |s| else n
    ensures r == s[..|r|]
  {
    if |s| < n then s else s[..n]
  }

  /** Filter, sort newest first, keep at most `n`: the feed and comment queries. */
  function Select<T(!new)>(s: seq<T>, keep: T -> bool, key: T -> int, n: nat): seq<T> {
    Take(SortDesc(Filter(s, keep), key), n)
  }

  /**
   * The first `n` rows of a newest-first sequence: newest first, drawn from
   * it, and no row left out is newer than a row kept.
   */
  lemma TakeSorted<T(!new)>(t: seq<T>, key: T -> int, n: nat)
    requires SortedDesc(t, key)
    ensures SortedDesc(Take(t, n), key)
    ensures multiset(Take(t, n)) <= multiset(t)
    ensures forall x, i :: x in multiset(t) - multiset(Take(t, n)) && 0 <= i < |Take(t, n)|
              ==> key(Take(t, n)[i]) >= key(x)
    ensures |t| <= n ==> Take(t, n) == t
  {
    var r := Take(t, n);
    var m := |r|;
    assert t == r + t[m..];
    assert multiset(t) == multiset(r) + multiset(t[m..]);
    forall x, i | x in multiset(t) - multiset(r) && 0 <= i < m
      ensures key(r[i]) >= key(x)
    {
      assert x in multiset(t[m..]);
      var j :| 0 <= j < |t[m..]| && t[m..][j] == x;
      assert t[m + j] == x && t[i] == r[i];
    }
  }

  /** The rows a filter keeps are rows of its input that the predicate accepts. */
  lemma FilterMember<T(!new)>(s: seq<T>, keep: T -> bool, x: T)
    requires x in multiset(Filter(s, keep))
    ensures x in s && keep(x)
  {
  }

  /**
   * What such a query returns: `n` rows, or every accepted row when fewer
   * are accepted; each an accepted row of `s` (with no more copies than `s`
   * has), newest first; and every accepted row left out is no newer than
   * any row returned. When at most `n` rows are accepted, all of them are
   * returned.
   */
  lemma SelectSpec<T(!new)>(s: seq<T>, keep: T -> bool, key: T -> int, n: nat)
    ensures |Select(s, keep, key, n)| == if |Filter(s, keep)| < n then |Filter(s, keep)| else n
    ensures forall x :: x in Select(s, keep, key, n) ==> x in s && keep(x)
    ensures multiset(Select(s, keep, key, n)) <= multiset(Filter(s, keep))
    ensures SortedDesc(Select(s, keep, key, n), key)
    ensures forall x, i ::
              (x in multiset(Filter(s, keep)) - multiset(Select(s, keep, key, n)) && 0 <= i < |Select(s, keep, key, n)|)
              ==> key(Select(s, keep, key, n)[i]) >= key(x)
    ensures |Filter(s, keep)| <= n ==> multiset(Select(s, keep, key, n)) == multiset(Filter(s, keep))
  {
    var f := Filter(s, keep);
    var t := SortDesc(f, key);
    assert |t| == |f| by {
      assert multiset(t) == multiset(f);
      assert |multiset(t)| == |t| && |multiset(f)| == |f|;
    }
    TakeSorted(t, key, n);
    forall x | x in Take(t, n) ensures x in s && keep(x) {
      assert x in multiset(Take(t, n));
      FilterMember(s, keep, x);
    }
  }

  /** An accepted row of `s` that a query leaves out is no newer than any row it returns. */
  lemma SelectLeftOut<T(!new)>(s: seq<T>, keep: T -> bool, key: T -> int, n: nat, x: T, i: int)
    requires x in s && keep(x) && x !in Select(s, keep, key, n)
    requires 0 <= i < |Select(s, keep, key, n)|
    ensures key(Select(s, keep, key, n)[i]) >= key(x)
  {
    var f := Filter(s, keep);
    var r := Select(s, keep, key, n);
    SelectSpec(s, keep, key, n);
    assert multiset(f)[x] == multiset(s)[x] > 0;
    assert multiset(r)[x] == 0;
    assert x in multiset(f) - multiset(r);
  }
}
