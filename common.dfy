/** Values shared by every part of the model: JavaScript's "value or undefined/null". */
module Common {

  /** `undefined` / `null` in the source becomes None. */
  datatype Option<+T> = None | Some(value: T) {
    function GetOr(default: T): T {
      match this
      case Some(v) => v
      case None => default
    }
  }

  function Min(a: int, b: int): int { if a <= b then a else b }

  function Max(a: int, b: int): int { if a >= b then a else b }

  /** A string in a JavaScript truthiness test: only "" (and a missing value) is falsy. */
  predicate TruthyText(s: Option<string>) {
    s.Some? && s.value != ""
  }

  /** A number in a JavaScript truthiness test: missing and 0 are falsy. */
  predicate TruthyNumber(n: Option<int>) {
    n.Some? && n.value != 0
  }

  /** The elements of s satisfying p, in their order: `s.filter(p)`. */
  function Filter<T(!new)>(s: seq<T>, p: T -> bool): (r: seq<T>)
    ensures |r| <= |s|
    ensures forall x :: x in r <==> x in s && p(x)
    ensures multiset(r) <= multiset(s)
  {
    if s == [] then []
    else
      assert s == [s[0]] + s[1..];
      (if p(s[0]) then [s[0]] else []) + Filter(s[1..], p)
  }

  /** Filtering a concatenation filters each part: kept elements stay in their order. */
  lemma {:induction false} FilterAppend<T(!new)>(a: seq<T>, b: seq<T>, p: T -> bool)
    ensures Filter(a + b, p) == Filter(a, p) + Filter(b, p)
  {
    if a == [] {
      assert a + b == b;
    } else {
      assert (a + b)[0] == a[0];
      assert (a + b)[1..] == a[1..] + b;
      FilterAppend(a[1..], b, p);
    }
  }

  lemma FilterOne<T(!new)>(x: T, p: T -> bool)
    ensures Filter([x], p) == if p(x) then [x] else []
  {
    assert [x][1..] == [];
  }

  /** Index of the first element satisfying p: `s.findIndex(p)`, with -1 as None. */
  function IndexWhere<T>(s: seq<T>, p: T -> bool): (r: Option<nat>)
    ensures r.None? <==> forall k :: 0 <= k < |s| ==> !p(s[k])
    ensures r.Some? ==> r.value < |s| && p(s[r.value])
    ensures r.Some? ==> forall k :: 0 <= k < r.value ==> !p(s[k])
  {
    if s == [] then None
    else if p(s[0]) then Some(0)
    else match IndexWhere(s[1..], p)
      case None => None
      case Some(i) => Some(i + 1)
  }

  lemma SameElements<T>(a: seq<T>, b: seq<T>)
    requires multiset(a) == multiset(b)
    ensures forall x :: x in a <==> x in b
  {
    forall x | x in a
      ensures x in b
    {
      assert x in multiset(a);
    }
    forall x | x in b
      ensures x in a
    {
      assert x in multiset(b);
    }
  }

  /** s without its element at index i keeps exactly the elements at the other indices. */
  lemma RemoveAtElements<T>(s: seq<T>, i: nat)
    requires i < |s|
    ensures |s[..i] + s[i + 1..]| == |s| - 1
    ensures forall k :: 0 <= k < i ==> (s[..i] + s[i + 1..])[k] == s[k]
    ensures forall k :: i < k < |s| ==> (s[..i] + s[i + 1..])[k - 1] == s[k]
  {
  }

  lemma RemoveAtIndex<T>(s: seq<T>, i: nat, k: nat)
    requires i < |s| && k < |s| - 1
    ensures (s[..i] + s[i + 1..])[k] == s[if k < i then k else k + 1]
  {
  }

  /** `s.reduce((sum, x) => sum + f(x), 0)`. */
  function SumBy<T>(s: seq<T>, f: T -> int): int {
    if s == [] then 0 else f(s[0]) + SumBy(s[1..], f)
  }

  lemma {:induction false} SumByAppend<T>(a: seq<T>, b: seq<T>, f: T -> int)
    ensures SumBy(a + b, f) == SumBy(a, f) + SumBy(b, f)
  {
    if a != [] {
      assert (a + b)[1..] == a[1..] + b;
      SumByAppend(a[1..], b, f);
    } else {
      assert a + b == b;
    }
  }

  lemma SumByRemoveAt<T>(s: seq<T>, i: nat, f: T -> int)
    requires i < |s|
    ensures SumBy(s, f) == f(s[i]) + SumBy(s[..i] + s[i + 1..], f)
  {
    assert s == s[..i] + s[i..];
    SumByAppend(s[..i], s[i..], f);
    assert s[i..][1..] == s[i + 1..];
    SumByAppend(s[..i], s[i + 1..], f);
  }

  /** A reduction by sum does not depend on the order of the elements. */
  lemma {:induction false} SumByPermutation<T>(a: seq<T>, b: seq<T>, f: T -> int)
    requires multiset(a) == multiset(b)
    ensures SumBy(a, f) == SumBy(b, f)
  {
    if a != [] {
      var j := PositionOf(b, a[0]);
      var rest := b[..j] + b[j + 1..];
      SumByRemoveAt(b, j, f);
      RemoveAtMultiset(b, j);
      RemoveAtMultiset(a, 0);
      SumByPermutation(a[1..], rest, f);
    }
  }

  /** A position at which an element of the multiset of s sits in s. */
  lemma PositionOf<T>(s: seq<T>, x: T) returns (j: nat)
    requires x in multiset(s)
    ensures j < |s| && s[j] == x
  {
    assert x in s;
    j :| 0 <= j < |s| && s[j] == x;
  }

  lemma RemoveAtMultiset<T>(s: seq<T>, i: nat)
    requires i < |s|
    ensures multiset(s[..i] + s[i + 1..]) == multiset(s) - multiset{s[i]}
    ensures i == 0 ==> multiset(s[1..]) == multiset(s) - multiset{s[0]}
  {
    assert s == s[..i] + [s[i]] + s[i + 1..];
  }

  /** Removing a key just set forgets the value set. */
  lemma UpdateThenRemove<K, V>(m: map<K, V>, k: K, v: V)
    ensures m[k := v] - {k} == m - {k}
  {
  }

  /** Each term between lo and hi puts the sum between |s| * lo and |s| * hi. */
  lemma {:induction false} SumByBounds<T>(s: seq<T>, f: T -> int, lo: int, hi: int)
    requires forall k :: 0 <= k < |s| ==> lo <= f(s[k]) <= hi
    ensures |s| * lo <= SumBy(s, f) <= |s| * hi
  {
    if s != [] {
      SumByBounds(s[1..], f, lo, hi);
      assert |s| * lo == lo + (|s| - 1) * lo;
      assert |s| * hi == hi + (|s| - 1) * hi;
    }
  }
}
