/**
 * Orderings used by the listings and the client pages: descending by an integer
 * key (newest first, largest first), ascending by a text key (folder names), and
 * the first k of a descending order.
 *
 * The sorts are stable insertion sorts: an element is placed before the
 * elements it ties with that came after it, so equal keys keep their input
 * order, as JavaScript's `Array.prototype.sort` does (SortDescStable,
 * SortAscStable).
 */
module Sorting {
  import opened Common

  ghost predicate SortedDesc<T>(s: seq<T>, key: T -> int) {
    forall i, j :: 0 <= i < j < |s| ==> key(s[i]) >= key(s[j])
  }

  /** x placed before the first element whose key is not above key(x). */
  function InsertDesc<T>(x: T, s: seq<T>, key: T -> int): (r: seq<T>)
    ensures |r| == |s| + 1 && multiset(r) == multiset(s) + multiset{x}
  {
    if s == [] || key(x) >= key(s[0]) then [x] + s
    else
      assert s == [s[0]] + s[1..];
      [s[0]] + InsertDesc(x, s[1..], key)
  }

  lemma {:induction false} InsertDescSorted<T>(x: T, s: seq<T>, key: T -> int)
    requires SortedDesc(s, key)
    ensures SortedDesc(InsertDesc(x, s, key), key)
  {
    if s != [] && key(x) < key(s[0]) {
      var rest := InsertDesc(x, s[1..], key);
      InsertDescSorted(x, s[1..], key);
      assert s == [s[0]] + s[1..];
      forall j | 0 <= j < |rest|
        ensures key(rest[j]) <= key(s[0])
      {
        assert rest[j] in multiset(rest);
        if rest[j] != x {
          assert rest[j] in multiset(s[1..]);
          var k :| 0 <= k < |s[1..]| && s[1..][k] == rest[j];
          assert s[k + 1] == rest[j];
        }
      }
    }
  }

  /** A stable sort into descending key order. */
  function SortDesc<T>(s: seq<T>, key: T -> int): (r: seq<T>)
    ensures |r| == |s| && multiset(r) == multiset(s)
  {
    if s == [] then []
    else
      assert s == [s[0]] + s[1..];
      InsertDesc(s[0], SortDesc(s[1..], key), key)
  }

  lemma {:induction false} SortDescSorted<T>(s: seq<T>, key: T -> int)
    ensures SortedDesc(SortDesc(s, key), key)
  {
    if s != [] {
      SortDescSorted(s[1..], key);
      InsertDescSorted(s[0], SortDesc(s[1..], key), key);
    }
  }

  /** The elements whose key is v: `filter` by that key, the view in which a sort is stable. */
  function KeyIs<T, K(==)>(key: T -> K, v: K): T -> bool {
    (y: T) => key(y) == v
  }

  /** Inserting x keeps the elements tied with it after it, and every other tie group as it was. */
  lemma {:induction false} InsertDescKeepsTies<T(!new)>(x: T, s: seq<T>, key: T -> int, v: int)
    ensures Filter(InsertDesc(x, s, key), KeyIs(key, v))
      == (if key(x) == v then [x] else []) + Filter(s, KeyIs(key, v))
  {
    var p := KeyIs(key, v);
    var mine := if key(x) == v then [x] else [];
    if s == [] || key(x) >= key(s[0]) {
      FilterOne(x, p);
      FilterAppend([x], s, p);
    } else {
      assert s == [s[0]] + s[1..];
      InsertDescKeepsTies(x, s[1..], key, v);
      TiesStep(s[0], InsertDesc(x, s[1..], key), s[1..], p, mine);
    }
  }

  /** An element outside the tie group, or a tie group with nothing to add, lets the head go first. */
  lemma TiesStep<T(!new)>(y: T, rest: seq<T>, tail: seq<T>, p: T -> bool, mine: seq<T>)
    requires Filter(rest, p) == mine + Filter(tail, p)
    requires mine == [] || !p(y)
    ensures Filter([y] + rest, p) == mine + Filter([y] + tail, p)
  {
    FilterAppend([y], rest, p);
    FilterAppend([y], tail, p);
    FilterOne(y, p);
    SwapPastEmpty(Filter([y], p), mine, Filter(tail, p));
  }

  /** Two parts of which one is empty can be put in either order. */
  lemma SwapPastEmpty<T>(a: seq<T>, b: seq<T>, c: seq<T>)
    requires a == [] || b == []
    ensures a + (b + c) == b + (a + c)
  {
    if a == [] {
      assert a + (b + c) == b + c;
    } else {
      assert b + (a + c) == a + c;
    }
  }

  /** SortDesc is stable: the elements of any one key come out in their input order. */
  lemma {:induction false} SortDescStable<T(!new)>(s: seq<T>, key: T -> int, v: int)
    ensures Filter(SortDesc(s, key), KeyIs(key, v)) == Filter(s, KeyIs(key, v))
  {
    if s != [] {
      var p := KeyIs(key, v);
      assert s == [s[0]] + s[1..];
      SortDescStable(s[1..], key, v);
      InsertDescKeepsTies(s[0], SortDesc(s[1..], key), key, v);
      FilterOne(s[0], p);
      FilterAppend([s[0]], s[1..], p);
    }
  }

  /** The first k elements of s in descending key order: a sort followed by `slice(0, k)`. */
  function TopK<T>(s: seq<T>, key: T -> int, k: nat): seq<T> {
    var sorted := SortDesc(s, key);
    sorted[..Min(k, |sorted|)]
  }

  lemma TopKSplit<T>(s: seq<T>, key: T -> int, k: nat)
    ensures var sorted := SortDesc(s, key);
      var m := Min(k, |s|);
      && TopK(s, key, k) == sorted[..m]
      && multiset(s) == multiset(sorted[..m]) + multiset(sorted[m..])
  {
    var sorted := SortDesc(s, key);
    SplitMultiset(sorted, Min(k, |s|));
  }

  /** Cutting a sequence in two splits its multiset. */
  lemma SplitMultiset<T>(s: seq<T>, m: nat)
    requires m <= |s|
    ensures multiset(s) == multiset(s[..m]) + multiset(s[m..])
  {
    assert s == s[..m] + s[m..];
  }

  /** TopK holds min(k, |s|) elements of s, in order, and none of the rest beats any of them. */
  lemma TopKIsTop<T(!new)>(s: seq<T>, key: T -> int, k: nat)
    ensures var r := TopK(s, key, k);
      && |r| == Min(k, |s|)
      && SortedDesc(r, key)
      && multiset(r) <= multiset(s)
      && forall x, y :: x in r && y in multiset(s) - multiset(r) ==> key(y) <= key(x)
  {
    var sorted := SortDesc(s, key);
    var m := Min(k, |s|);
    TopKSplit(s, key, k);
    SortDescSorted(s, key);
    var r, rest := sorted[..m], sorted[m..];
    assert TopK(s, key, k) == r;
    assert SortedDesc(r, key) by {
      forall i, j | 0 <= i < j < |r|
        ensures key(r[i]) >= key(r[j])
      {
        assert r[i] == sorted[i] && r[j] == sorted[j];
      }
    }
    assert multiset(s) - multiset(r) == multiset(rest);
    forall x, y | x in r && y in multiset(rest)
      ensures key(y) <= key(x)
    {
      TopKPairs(sorted, m, key, x, y);
    }
  }

  lemma TopKPairs<T>(sorted: seq<T>, m: nat, key: T -> int, x: T, y: T)
    requires m <= |sorted| && SortedDesc(sorted, key)
    requires x in sorted[..m] && y in multiset(sorted[m..])
    ensures key(y) <= key(x)
  {
    var i :| 0 <= i < m && sorted[..m][i] == x;
    var j :| 0 <= j < |sorted| - m && sorted[m..][j] == y;
    assert sorted[i] == x && sorted[m + j] == y;
  }

  // ---------------------------------------------------------------- text order

  /** Code-point lexicographic order: a is a prefix of b or smaller at the first difference. */
  predicate LexLessEq(a: string, b: string) {
    a == [] || (b != [] && (a[0] < b[0] || (a[0] == b[0] && LexLessEq(a[1..], b[1..]))))
  }

  lemma {:induction false} LexTotal(a: string, b: string)
    ensures LexLessEq(a, b) || LexLessEq(b, a)
  {
    if a != [] && b != [] && a[0] == b[0] {
      LexTotal(a[1..], b[1..]);
    }
  }

  lemma {:induction false} LexTransitive(a: string, b: string, c: string)
    requires LexLessEq(a, b) && LexLessEq(b, c)
    ensures LexLessEq(a, c)
  {
    if a != [] && a[0] == b[0] && b[0] == c[0] {
      LexTransitive(a[1..], b[1..], c[1..]);
    }
  }

  lemma {:induction false} LexAntisymmetric(a: string, b: string)
    requires LexLessEq(a, b) && LexLessEq(b, a)
    ensures a == b
  {
    if a != [] && b != [] {
      LexAntisymmetric(a[1..], b[1..]);
      assert a == [a[0]] + a[1..] && b == [b[0]] + b[1..];
    }
  }

  lemma {:induction false} LexReflexive(a: string)
    ensures LexLessEq(a, a)
  {
    if a != [] {
      LexReflexive(a[1..]);
    }
  }

  ghost predicate SortedAsc<T>(s: seq<T>, key: T -> string) {
    forall i, j :: 0 <= i < j < |s| ==> LexLessEq(key(s[i]), key(s[j]))
  }

  /** x placed before the first element whose key is not below key(x). */
  function InsertAsc<T>(x: T, s: seq<T>, key: T -> string): (r: seq<T>)
    ensures |r| == |s| + 1 && multiset(r) == multiset(s) + multiset{x}
  {
    if s == [] || LexLessEq(key(x), key(s[0])) then [x] + s
    else
      assert s == [s[0]] + s[1..];
      [s[0]] + InsertAsc(x, s[1..], key)
  }

  lemma {:induction false} InsertAscSorted<T>(x: T, s: seq<T>, key: T -> string)
    requires SortedAsc(s, key)
    ensures SortedAsc(InsertAsc(x, s, key), key)
  {
    if s == [] {
    } else if LexLessEq(key(x), key(s[0])) {
      forall j | 0 <= j < |s|
        ensures LexLessEq(key(x), key(s[j]))
      {
        if j > 0 {
          LexTransitive(key(x), key(s[0]), key(s[j]));
        }
      }
    } else {
      LexTotal(key(x), key(s[0]));
      var rest := InsertAsc(x, s[1..], key);
      InsertAscSorted(x, s[1..], key);
      assert s == [s[0]] + s[1..];
      forall j | 0 <= j < |rest|
        ensures LexLessEq(key(s[0]), key(rest[j]))
      {
        assert rest[j] in multiset(rest);
        if rest[j] != x {
          assert rest[j] in multiset(s[1..]);
          var k :| 0 <= k < |s[1..]| && s[1..][k] == rest[j];
          assert s[k + 1] == rest[j];
        }
      }
    }
  }

  /** A stable sort into ascending text order of the key. */
  function SortAsc<T>(s: seq<T>, key: T -> string): (r: seq<T>)
    ensures |r| == |s| && multiset(r) == multiset(s)
  {
    if s == [] then []
    else
      assert s == [s[0]] + s[1..];
      InsertAsc(s[0], SortAsc(s[1..], key), key)
  }

  lemma {:induction false} SortAscSorted<T>(s: seq<T>, key: T -> string)
    ensures SortedAsc(SortAsc(s, key), key)
  {
    if s != [] {
      SortAscSorted(s[1..], key);
      InsertAscSorted(s[0], SortAsc(s[1..], key), key);
    }
  }

  /** Inserting x keeps the elements tied with it after it, and every other tie group as it was. */
  lemma {:induction false} InsertAscKeepsTies<T(!new)>(x: T, s: seq<T>, key: T -> string, v: string)
    ensures Filter(InsertAsc(x, s, key), KeyIs(key, v))
      == (if key(x) == v then [x] else []) + Filter(s, KeyIs(key, v))
  {
    var p := KeyIs(key, v);
    var mine := if key(x) == v then [x] else [];
    if s == [] || LexLessEq(key(x), key(s[0])) {
      FilterOne(x, p);
      FilterAppend([x], s, p);
    } else {
      LexReflexive(key(x));
      assert s == [s[0]] + s[1..];
      InsertAscKeepsTies(x, s[1..], key, v);
      TiesStep(s[0], InsertAsc(x, s[1..], key), s[1..], p, mine);
    }
  }

  /** SortAsc is stable: the elements of any one key come out in their input order. */
  lemma {:induction false} SortAscStable<T(!new)>(s: seq<T>, key: T -> string, v: string)
    ensures Filter(SortAsc(s, key), KeyIs(key, v)) == Filter(s, KeyIs(key, v))
  {
    if s != [] {
      var p := KeyIs(key, v);
      assert s == [s[0]] + s[1..];
      SortAscStable(s[1..], key, v);
      InsertAscKeepsTies(s[0], SortAsc(s[1..], key), key, v);
      FilterOne(s[0], p);
      FilterAppend([s[0]], s[1..], p);
    }
  }
}
