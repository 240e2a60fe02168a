/** The order of strings by their UTF-16 code units, and sorting by a string key. */
module TextOrder {
  /**
   * The place of a character in the order of UTF-16: the code units of a character beyond the first 65536
   * come between those of the two other ranges.
   */
  function Rank(c: char): nat {
    var n := c as int;
    if 0xE000 <= n < 0x1_0000 then n + 0x10_0000 else if n < 0xE000 then n else n - 0x2000
  }

  lemma RankInjective(a: char, b: char)
    requires Rank(a) == Rank(b)
    ensures a == b
  {
    assert a as int == b as int;
  }

  /** `a` comes before `b` or is the same, by UTF-16 code units. */
  predicate Leq(a: string, b: string)
    decreases |a|
  {
    a == "" || (b != "" && (Rank(a[0]) < Rank(b[0]) || (a[0] == b[0] && Leq(a[1..], b[1..]))))
  }

  lemma {:induction false} LeqTotal(a: string, b: string)
    ensures Leq(a, b) || Leq(b, a)
    decreases |a|
  {
    if a != "" && b != "" {
      if Rank(a[0]) == Rank(b[0]) {
        RankInjective(a[0], b[0]);
      }
      LeqTotal(a[1..], b[1..]);
    }
  }

  lemma {:induction false} LeqAntisymmetric(a: string, b: string)
    requires Leq(a, b) && Leq(b, a)
    ensures a == b
    decreases |a|
  {
    if a != "" && b != "" {
      LeqAntisymmetric(a[1..], b[1..]);
      assert a == [a[0]] + a[1..] && b == [b[0]] + b[1..];
    }
  }

  lemma {:induction false} LeqTransitive(a: string, b: string, c: string)
    requires Leq(a, b) && Leq(b, c)
    ensures Leq(a, c)
    decreases |a|
  {
    if a != "" && a[0] == b[0] == c[0] {
      LeqTransitive(a[1..], b[1..], c[1..]);
    }
  }

  /** The UTF-16 code units of a character: one, or a high and a low surrogate. */
  function Units(c: char): seq<nat> {
    var n := c as int;
    if n < 0x1_0000 then [n] else [0xD800 + (n - 0x1_0000) / 0x400, 0xDC00 + (n - 0x1_0000) % 0x400]
  }

  function AllUnits(s: string): seq<nat> {
    if s == "" then [] else Units(s[0]) + AllUnits(s[1..])
  }

  /** Up to some place the units are the same; there the first text ends or has the smaller unit. */
  ghost predicate UnitsAscend(a: seq<nat>, b: seq<nat>) {
    exists k :: 0 <= k <= |a| && k <= |b| && a[..k] == b[..k] && (k == |a| || (k < |b| && a[k] < b[k]))
  }

  lemma RankIsUnitOrder(c: char, d: char)
    requires c != d
    ensures var u, v := Units(c), Units(d);
            Rank(c) < Rank(d) <==> u[0] < v[0] || (u[0] == v[0] && |u| == 2 && |v| == 2 && u[1] < v[1])
    ensures Units(c)[0] != Units(d)[0] || (|Units(c)| == 2 && |Units(d)| == 2 && Units(c)[1] != Units(d)[1])
  {
    var m, n := c as int, d as int;
    if m >= 0x1_0000 && n >= 0x1_0000 {
      assert m - 0x1_0000 == (m - 0x1_0000) / 0x400 * 0x400 + (m - 0x1_0000) % 0x400;
      assert n - 0x1_0000 == (n - 0x1_0000) / 0x400 * 0x400 + (n - 0x1_0000) % 0x400;
    }
  }

  /** The order is that of the UTF-16 code units. */
  lemma {:induction false} LeqIsUnitOrder(a: string, b: string)
    ensures Leq(a, b) <==> UnitsAscend(AllUnits(a), AllUnits(b))
    decreases |a|
  {
    var s, t := AllUnits(a), AllUnits(b);
    if a == "" {
      assert s[..0] == t[..0];
    } else if b == "" {
    } else if a[0] == b[0] {
      LeqIsUnitOrder(a[1..], b[1..]);
      CommonUnits(Units(a[0]), AllUnits(a[1..]), AllUnits(b[1..]));
    } else {
      RankIsUnitOrder(a[0], b[0]);
      FirstDifference(s, t, if Units(a[0])[0] == Units(b[0])[0] then 1 else 0);
    }
  }

  lemma CommonUnits(u: seq<nat>, a: seq<nat>, b: seq<nat>)
    ensures UnitsAscend(u + a, u + b) <==> UnitsAscend(a, b)
  {
    if k :| 0 <= k <= |a| && k <= |b| && a[..k] == b[..k] && (k == |a| || (k < |b| && a[k] < b[k])) {
      var n := |u| + k;
      assert (u + a)[..n] == u + a[..k] && (u + b)[..n] == u + b[..k];
    }
    var s, t := u + a, u + b;
    if n :| 0 <= n <= |s| && n <= |t| && s[..n] == t[..n] && (n == |s| || (n < |t| && s[n] < t[n])) {
      assert n >= |u|;
      var k := n - |u|;
      assert a[..k] == s[..n][|u|..] && b[..k] == t[..n][|u|..];
    }
  }

  lemma SameBelow(s: seq<nat>, t: seq<nat>, n: nat, k: nat)
    requires k < n <= |s| && n <= |t| && s[..n] == t[..n]
    ensures s[k] == t[k]
  {
    assert s[k] == s[..n][k];
    assert t[k] == t[..n][k];
  }

  /** The first difference decides. */
  lemma FirstDifference(s: seq<nat>, t: seq<nat>, k: nat)
    requires k < |s| && k < |t| && s[..k] == t[..k] && s[k] != t[k]
    ensures UnitsAscend(s, t) <==> s[k] < t[k]
  {
    if n :| 0 <= n <= |s| && n <= |t| && s[..n] == t[..n] && (n == |s| || (n < |t| && s[n] < t[n])) {
      if n > k {
        SameBelow(s, t, n, k);
      } else if n < k {
        SameBelow(s, t, k, n);
      }
    }
  }

  ghost predicate Sorted<T>(key: T -> string, s: seq<T>) {
    forall i, j :: 0 <= i < j < |s| ==> Leq(key(s[i]), key(s[j]))
  }

  /** No element occurs twice and no two elements have the same key. */
  ghost predicate DistinctKeys<T(!new)>(key: T -> string, s: seq<T>) {
    && (forall x :: x in s ==> multiset(s)[x] == 1)
    && (forall x, y :: x in s && y in s && key(x) == key(y) ==> x == y)
  }

  function Insert<T>(key: T -> string, x: T, s: seq<T>): (r: seq<T>)
    ensures multiset(r) == multiset(s) + multiset{x}
  {
    if s == [] then [x]
    else if Leq(key(x), key(s[0])) then
      assert [x] + s == [x] + s;
      [x] + s
    else
      var r := [s[0]] + Insert(key, x, s[1..]);
      assert s == [s[0]] + s[1..];
      r
  }

  function SortBy<T>(key: T -> string, s: seq<T>): (r: seq<T>)
    ensures multiset(r) == multiset(s)
  {
    if s == [] then []
    else
      assert s == [s[0]] + s[1..];
      Insert(key, s[0], SortBy(key, s[1..]))
  }

  lemma SameElements<T>(a: seq<T>, b: seq<T>)
    requires multiset(a) == multiset(b)
    ensures |a| == |b| && forall x :: x in a <==> x in b
  {
    assert |a| == |multiset(a)| == |multiset(b)| == |b|;
    forall x ensures x in a <==> x in b {
      assert x in a <==> x in multiset(a);
      assert x in b <==> x in multiset(b);
    }
  }

  lemma {:induction false} InsertSorted<T>(key: T -> string, x: T, s: seq<T>)
    requires Sorted(key, s)
    ensures Sorted(key, Insert(key, x, s))
  {
    if s == [] {
    } else if Leq(key(x), key(s[0])) {
      forall j | 0 <= j < |s| ensures Leq(key(x), key(s[j])) {
        if j > 0 {
          LeqTransitive(key(x), key(s[0]), key(s[j]));
        }
      }
    } else {
      LeqTotal(key(x), key(s[0]));
      InsertSorted(key, x, s[1..]);
      var r := Insert(key, x, s[1..]);
      forall y | y in r ensures Leq(key(s[0]), key(y)) {
        assert y in multiset(r);
        if y != x {
          assert y in s[1..];
          var j :| 0 <= j < |s[1..]| && s[1..][j] == y;
          assert s[j + 1] == y;
        }
      }
    }
  }

  lemma {:induction false} SortBySorted<T>(key: T -> string, s: seq<T>)
    ensures Sorted(key, SortBy(key, s))
  {
    if s != [] {
      SortBySorted(key, s[1..]);
      InsertSorted(key, s[0], SortBy(key, s[1..]));
    }
  }

  lemma DistinctTail<T(!new)>(key: T -> string, s: seq<T>)
    requires s != [] && DistinctKeys(key, s)
    ensures DistinctKeys(key, s[1..])
    ensures multiset(s[1..]) == multiset(s) - multiset{s[0]}
  {
    assert s == [s[0]] + s[1..];
    forall x | x in s[1..] ensures multiset(s[1..])[x] == 1 {
      assert x in multiset(s[1..]) && x in s;
    }
  }

  lemma HeadNotInTail<T(!new)>(key: T -> string, s: seq<T>, x: T)
    requires s != [] && DistinctKeys(key, s) && x in s[1..]
    ensures key(x) != key(s[0])
  {
    assert s == [s[0]] + s[1..];
    assert multiset(s)[s[0]] == 1 + multiset(s[1..])[s[0]];
    assert x in multiset(s[1..]) && x in s;
  }

  lemma HeadIsLeast<T>(key: T -> string, s: seq<T>, x: T)
    requires Sorted(key, s) && x in s
    ensures Leq(key(s[0]), key(x))
  {
    var i :| 0 <= i < |s| && s[i] == x;
    if i == 0 {
      LeqTotal(key(x), key(x));
    }
  }

  /** Two sorted permutations of elements with distinct keys are the same. */
  lemma {:induction false} SortedUnique<T(!new)>(key: T -> string, a: seq<T>, b: seq<T>)
    requires multiset(a) == multiset(b) && DistinctKeys(key, a)
    requires Sorted(key, a) && Sorted(key, b)
    ensures a == b
    decreases |a|
  {
    SameElements(a, b);
    if a != [] {
      SameLeast(key, a, b);
      DistinctTail(key, a);
      SortedTail(key, a);
      SortedTail(key, b);
      SortedUnique(key, a[1..], b[1..]);
      HeadAndTail(a, b);
    }
  }

  lemma HeadAndTail<T>(a: seq<T>, b: seq<T>)
    requires a != [] && b != [] && a[0] == b[0] && a[1..] == b[1..]
    ensures a == b
  {
    assert a == [a[0]] + a[1..] && b == [b[0]] + b[1..];
  }

  lemma SameLeast<T(!new)>(key: T -> string, a: seq<T>, b: seq<T>)
    requires multiset(a) == multiset(b) && DistinctKeys(key, a) && a != [] && b != []
    requires Sorted(key, a) && Sorted(key, b)
    ensures a[0] == b[0] && multiset(a[1..]) == multiset(b[1..])
  {
    SameElements(a, b);
    assert a[0] in b && b[0] in a;
    HeadIsLeast(key, a, b[0]);
    HeadIsLeast(key, b, a[0]);
    LeqAntisymmetric(key(a[0]), key(b[0]));
    TailElements(a);
    TailElements(b);
  }

  lemma TailElements<T>(s: seq<T>)
    requires s != []
    ensures multiset(s[1..]) == multiset(s) - multiset{s[0]}
  {
    assert s == [s[0]] + s[1..];
  }

  lemma SortedTail<T>(key: T -> string, s: seq<T>)
    requires s != [] && Sorted(key, s)
    ensures Sorted(key, s[1..])
  {
  }

  /** Sorting forgets the order of a listing whose keys are distinct. */
  lemma SortForgetsOrder<T(!new)>(key: T -> string, a: seq<T>, b: seq<T>)
    requires multiset(a) == multiset(b) && DistinctKeys(key, a)
    ensures SortBy(key, a) == SortBy(key, b)
  {
    SortBySorted(key, a);
    SortBySorted(key, b);
    SameElements(a, SortBy(key, a));
    SortedUnique(key, SortBy(key, a), SortBy(key, b));
  }

  /** Two lists with the same keys in the same order, and related elements. */
  ghost predicate Pairwise<T>(key: T -> string, related: (T, T) -> bool, a: seq<T>, b: seq<T>) {
    |a| == |b|
    && (a == [] || (key(a[0]) == key(b[0]) && related(a[0], b[0]) && Pairwise(key, related, a[1..], b[1..])))
  }

  lemma {:induction false} PairwiseAtEach<T>(key: T -> string, related: (T, T) -> bool, a: seq<T>, b: seq<T>)
    requires |a| == |b| && forall i :: 0 <= i < |a| ==> key(a[i]) == key(b[i]) && related(a[i], b[i])
    ensures Pairwise(key, related, a, b)
  {
    if a != [] {
      PairwiseAtEach(key, related, a[1..], b[1..]);
    }
  }

  lemma PairwiseCons<T>(key: T -> string, related: (T, T) -> bool, x: T, y: T, a: seq<T>, b: seq<T>)
    requires key(x) == key(y) && related(x, y) && Pairwise(key, related, a, b)
    ensures Pairwise(key, related, [x] + a, [y] + b)
  {
    assert ([x] + a)[1..] == a && ([y] + b)[1..] == b;
  }

  lemma {:induction false} InsertPairwise<T>(key: T -> string, related: (T, T) -> bool, x: T, y: T, a: seq<T>, b: seq<T>)
    requires key(x) == key(y) && related(x, y) && Pairwise(key, related, a, b)
    ensures Pairwise(key, related, Insert(key, x, a), Insert(key, y, b))
  {
    if a == [] || Leq(key(x), key(a[0])) {
      PairwiseCons(key, related, x, y, a, b);
    } else {
      InsertPairwise(key, related, x, y, a[1..], b[1..]);
      PairwiseCons(key, related, a[0], b[0], Insert(key, x, a[1..]), Insert(key, y, b[1..]));
    }
  }

  lemma {:induction false} SortPairwise<T>(key: T -> string, related: (T, T) -> bool, a: seq<T>, b: seq<T>)
    requires Pairwise(key, related, a, b)
    ensures Pairwise(key, related, SortBy(key, a), SortBy(key, b))
  {
    if a != [] {
      SortPairwise(key, related, a[1..], b[1..]);
      InsertPairwise(key, related, a[0], b[0], SortBy(key, a[1..]), SortBy(key, b[1..]));
    }
  }
}
