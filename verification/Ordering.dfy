/** Node references, their lexicographic order, and the stable sort every stage relies on. */
module Ordering {

  /** An opaque per-tree handle; two trees never share handles by meaning. */
  type NodeRef = string

  // ---------------------------------------------------------------- order on strings

  /** Strict code-point order, the order of Python's `sorted` on strings. */
  predicate Below(a: string, b: string)
  {
    b != [] && (a == [] || a[0] < b[0] || (a[0] == b[0] && Below(a[1..], b[1..])))
  }

  lemma {:induction false} BelowTotal(a: string, b: string)
    ensures a != b ==> Below(a, b) || Below(b, a)
    ensures !Below(a, a)
    ensures !(Below(a, b) && Below(b, a))
  {
    if a != [] {
      BelowTotal(a[1..], a[1..]);
      if b != [] && a[0] == b[0] {
        BelowTotal(a[1..], b[1..]);
        assert a == [a[0]] + a[1..] && b == [b[0]] + b[1..];
      }
    }
  }

  lemma {:induction false} BelowTransitive(a: string, b: string, c: string)
    requires Below(a, b) && Below(b, c)
    ensures Below(a, c)
  {
    if a != [] && a[0] == b[0] == c[0] {
      BelowTransitive(a[1..], b[1..], c[1..]);
    }
  }

  /** The first `k` characters agree, and then `a` ends or has the smaller character. */
  ghost predicate PartsAt(a: string, b: string, k: nat)
  {
    k <= |a| && k < |b| && a[..k] == b[..k] && (k == |a| || a[k] < b[k])
  }

  /** The order is decided at the first difference, and a proper prefix comes first. */
  lemma {:induction false} BelowIff(a: string, b: string)
    ensures Below(a, b) <==> exists k: nat :: PartsAt(a, b, k)
  {
    if a != [] && b != [] && a[0] == b[0] {
      BelowIff(a[1..], b[1..]);
      if k: nat :| PartsAt(a[1..], b[1..], k) {
        assert a[..k + 1] == [a[0]] + a[1..][..k] && b[..k + 1] == [b[0]] + b[1..][..k];
        assert PartsAt(a, b, k + 1);
      }
      if k: nat :| PartsAt(a, b, k) {
        assert k > 0;
        assert a[1..][..k - 1] == a[..k][1..] && b[1..][..k - 1] == b[..k][1..];
        assert PartsAt(a[1..], b[1..], k - 1);
      }
    } else if Below(a, b) {
      assert PartsAt(a, b, 0);
    }
  }

  // ---------------------------------------------------------------- distinct sequences

  /** No value sits at two positions. */
  ghost predicate Distinct<T>(xs: seq<T>)
  {
    forall i, j :: 0 <= i < j < |xs| ==> xs[i] != xs[j]
  }

  lemma DistinctConcat<T>(a: seq<T>, b: seq<T>)
    requires Distinct(a) && Distinct(b)
    requires forall x :: x in a ==> x !in b
    ensures Distinct(a + b)
  {
    var ab := a + b;
    forall i, j | 0 <= i < j < |ab|
      ensures ab[i] != ab[j]
    {
      if i < |a| <= j {
        assert ab[i] in a && ab[j] in b;
      }
    }
  }

  /** Two distinct sequences over the same values have the same length. */
  lemma {:induction false} DistinctSameMembers<T>(a: seq<T>, b: seq<T>)
    requires Distinct(a) && Distinct(b)
    requires forall x :: x in a <==> x in b
    ensures |a| == |b|
    ensures multiset(a) == multiset(b)
  {
    DistinctCounts(a);
    DistinctCounts(b);
    assert multiset(a) == multiset(b);
    assert |multiset(a)| == |a| && |multiset(b)| == |b|;
  }

  lemma {:induction false} DistinctCounts<T>(a: seq<T>)
    requires Distinct(a)
    ensures forall x :: multiset(a)[x] == if x in a then 1 else 0
  {
    if a != [] {
      var rest, last := a[..|a| - 1], a[|a| - 1];
      assert a == rest + [last];
      DistinctCounts(rest);
      assert last !in rest;
    }
  }

  lemma SubsetSize<T>(a: set<T>, b: set<T>)
    requires a <= b
    ensures |a| <= |b|
  {
    assert b == a + (b - a);
  }

  /** A duplicate-free sequence drawn from a finite set is no longer than the set. */
  lemma {:induction false} DistinctFits<T>(a: seq<T>, s: set<T>)
    requires Distinct(a)
    requires forall x :: x in a ==> x in s
    ensures |a| <= |s|
  {
    if a != [] {
      var rest, last := a[..|a| - 1], a[|a| - 1];
      assert a == rest + [last] && last !in rest;
      DistinctFits(rest, s - {last});
    }
  }

  // ---------------------------------------------------------------- references in order

  ghost predicate Increasing(xs: seq<string>)
  {
    forall i, j {:trigger Below(xs[i], xs[j])} :: 0 <= i < j < |xs| ==> Below(xs[i], xs[j])
  }

  predicate IsLeast(m: string, s: set<string>)
  {
    m in s && forall x {:trigger Below(m, x)} :: x in s && x != m ==> Below(m, x)
  }

  lemma {:induction false} LeastExists(s: set<string>) returns (least: string)
    requires s != {}
    ensures IsLeast(least, s)
  {
    var y :| y in s;
    var rest := s - {y};
    assert forall x :: x in s ==> x == y || x in rest;
    if rest == {} {
      least := y;
    } else {
      var m := LeastExists(rest);
      BelowTotal(y, m);
      if Below(y, m) {
        least := y;
        forall x | x in s && x != y
          ensures Below(y, x)
        {
          if x != m { BelowTransitive(y, m, x); }
        }
      } else {
        least := m;
      }
    }
  }

  lemma LeastIsUnique(m: string, m': string, s: set<string>)
    requires IsLeast(m, s) && IsLeast(m', s)
    ensures m == m'
  {
    BelowTotal(m, m');
  }

  function Least(s: set<string>): (m: string)
    requires s != {}
    ensures IsLeast(m, s)
  {
    assert exists m :: IsLeast(m, s) by { var m := LeastExists(s); }
    assert forall m, m' :: IsLeast(m, s) && IsLeast(m', s) ==> m == m' by {
      forall m, m' | IsLeast(m, s) && IsLeast(m', s) { LeastIsUnique(m, m', s); }
    }
    var m :| m in s && IsLeast(m, s);
    m
  }

  /** `r` is Python's `sorted(s)`; by `SortsUnique` there is exactly one such sequence. */
  ghost predicate Sorts(r: seq<string>, s: set<string>)
  {
    Increasing(r) && forall x :: x in r <==> x in s
  }

  method SortRefs(s: set<string>) returns (r: seq<string>)
    ensures Sorts(r, s) && Distinct(r)
  {
    r := [];
    var rest := s;
    while rest != {}
      invariant rest <= s && Increasing(r)
      invariant forall x :: x in r <==> x in s - rest
      invariant forall x, y {:trigger Below(x, y)} :: x in r && y in rest ==> Below(x, y)
    {
      var m := Least(rest);
      rest := rest - {m};
      r := r + [m];
    }
    IncreasingIsDistinct(r);
  }

  lemma {:induction false} SortsUnique(a: seq<string>, b: seq<string>, s: set<string>)
    requires Sorts(a, s) && Sorts(b, s)
    ensures a == b
    decreases |a|
  {
    assert forall i :: 0 <= i < |b| ==> b[i] in b;
    assert |b| > 0 ==> b[0] in s;
    if a != [] {
      assert a[0] in b;
      HeadIsLeast(a, s);
      HeadIsLeast(b, s);
      LeastIsUnique(a[0], b[0], s);
      SortsTail(a, s);
      SortsTail(b, s);
      SortsUnique(a[1..], b[1..], s - {a[0]});
      assert a == [a[0]] + a[1..] && b == [b[0]] + b[1..];
    }
  }

  lemma HeadIsLeast(a: seq<string>, s: set<string>)
    requires a != [] && Sorts(a, s)
    ensures IsLeast(a[0], s)
  {
    assert a[0] in a;
    forall x | x in s && x != a[0]
      ensures Below(a[0], x)
    {
      var k :| 0 <= k < |a| && a[k] == x;
      assert Below(a[0], a[k]);
    }
  }

  lemma SortsTail(a: seq<string>, s: set<string>)
    requires a != [] && Sorts(a, s)
    ensures Sorts(a[1..], s - {a[0]})
  {
    IncreasingIsDistinct(a);
    assert a == [a[0]] + a[1..];
    var tail := a[1..];
    forall i, j | 0 <= i < j < |tail|
      ensures Below(tail[i], tail[j])
    {
      assert Below(a[i + 1], a[j + 1]);
    }
    forall x
      ensures x in tail <==> x in s - {a[0]}
    {
      assert x in a <==> x == a[0] || x in tail;
    }
  }

  lemma IncreasingIsDistinct(xs: seq<string>)
    requires Increasing(xs)
    ensures Distinct(xs)
  {
    forall i, j | 0 <= i < j < |xs|
      ensures xs[i] != xs[j]
    {
      BelowTotal(xs[i], xs[j]);
    }
  }

  // ---------------------------------------------------------------- stable sort by key

  function Insert<T>(le: (T, T) -> bool, x: T, xs: seq<T>): seq<T>
  {
    if xs == [] || le(x, xs[0]) then [x] + xs else [xs[0]] + Insert(le, x, xs[1..])
  }

  /** Python's stable `sorted` / `list.sort` for the key order `le`. */
  function SortBy<T>(le: (T, T) -> bool, xs: seq<T>): seq<T>
  {
    if xs == [] then [] else Insert(le, xs[0], SortBy(le, xs[1..]))
  }

  ghost predicate OrderedBy<T(!new)>(le: (T, T) -> bool, xs: seq<T>)
  {
    forall i, j :: 0 <= i < j < |xs| ==> le(xs[i], xs[j])
  }

  ghost predicate TotalPreorder<T(!new)>(le: (T, T) -> bool)
  {
    (forall a, b :: le(a, b) || le(b, a)) &&
    (forall a, b, c :: le(a, b) && le(b, c) ==> le(a, c))
  }

  lemma {:induction false} InsertKeeps<T>(le: (T, T) -> bool, x: T, xs: seq<T>)
    ensures multiset(Insert(le, x, xs)) == multiset{x} + multiset(xs)
  {
    if xs == [] || le(x, xs[0]) {
    } else {
      InsertKeeps(le, x, xs[1..]);
      assert xs == [xs[0]] + xs[1..];
    }
  }

  lemma {:induction false} InsertOrdered<T(!new)>(le: (T, T) -> bool, x: T, xs: seq<T>)
    requires TotalPreorder(le) && OrderedBy(le, xs)
    ensures OrderedBy(le, Insert(le, x, xs))
  {
    if xs == [] || le(x, xs[0]) {
    } else {
      var rest := Insert(le, x, xs[1..]);
      InsertOrdered(le, x, xs[1..]);
      InsertKeeps(le, x, xs[1..]);
      forall k | 0 <= k < |rest|
        ensures le(xs[0], rest[k])
      {
        assert rest[k] in multiset(rest);
        assert rest[k] == x || rest[k] in xs[1..];
      }
    }
  }

  lemma {:induction false} SortKeeps<T>(le: (T, T) -> bool, xs: seq<T>)
    ensures multiset(SortBy(le, xs)) == multiset(xs)
    ensures |SortBy(le, xs)| == |xs|
    ensures forall x :: x in SortBy(le, xs) <==> x in xs
  {
    if xs != [] {
      SortKeeps(le, xs[1..]);
      InsertKeeps(le, xs[0], SortBy(le, xs[1..]));
      assert xs == [xs[0]] + xs[1..];
    }
    SameBag(SortBy(le, xs), xs);
  }

  lemma SameBag<T>(a: seq<T>, b: seq<T>)
    requires multiset(a) == multiset(b)
    ensures |a| == |b| && forall x :: x in a <==> x in b
  {
    assert |multiset(a)| == |multiset(b)|;
    forall x
      ensures x in a <==> x in b
    {
      assert x in a <==> x in multiset(a);
    }
  }

  lemma {:induction false} SortOrders<T(!new)>(le: (T, T) -> bool, xs: seq<T>)
    requires TotalPreorder(le)
    ensures OrderedBy(le, SortBy(le, xs))
  {
    if xs != [] {
      SortOrders(le, xs[1..]);
      InsertOrdered(le, xs[0], SortBy(le, xs[1..]));
    }
  }

  lemma SortDistinct<T>(le: (T, T) -> bool, xs: seq<T>)
    requires Distinct(xs)
    ensures Distinct(SortBy(le, xs))
  {
    SortKeeps(le, xs);
    DistinctCounts(xs);
    MultisetDistinct(SortBy(le, xs));
  }

  /** `list.sort(key=...)`: reorders and nothing else. */
  method Sort<T(!new)>(le: (T, T) -> bool, xs: seq<T>) returns (r: seq<T>)
    requires TotalPreorder(le)
    ensures OrderedBy(le, r)
    ensures |r| == |xs| && forall x :: x in r <==> x in xs
    ensures Distinct(xs) ==> Distinct(r)
    ensures multiset(r) == multiset(xs)
  {
    r := SortBy(le, xs);
    SortKeeps(le, xs);
    SortOrders(le, xs);
    if Distinct(xs) { SortDistinct(le, xs); }
  }

  /** A count of two or more is two positions. */
  lemma {:induction false} TwiceIff<T>(xs: seq<T>, x: T)
    ensures multiset(xs)[x] >= 2 <==> exists i, j :: 0 <= i < j < |xs| && xs[i] == x && xs[j] == x
  {
    if i, j :| 0 <= i < j < |xs| && xs[i] == x && xs[j] == x { OccursTwice(xs, i, j); }
    if multiset(xs)[x] >= 2 {
      var rest, last := xs[..|xs| - 1], xs[|xs| - 1];
      assert xs == rest + [last];
      if last == x {
        assert x in multiset(rest);
        var i :| 0 <= i < |rest| && rest[i] == x;
        assert xs[i] == x && xs[|xs| - 1] == x;
      } else {
        TwiceIff(rest, x);
        var i, j :| 0 <= i < j < |rest| && rest[i] == x && rest[j] == x;
        assert xs[i] == x && xs[j] == x;
      }
    }
  }

  lemma MultisetDistinct<T>(xs: seq<T>)
    requires forall x :: multiset(xs)[x] <= 1
    ensures Distinct(xs)
  {
    forall i, j | 0 <= i < j < |xs|
      ensures xs[i] != xs[j]
    {
      OccursTwice(xs, i, j);
    }
  }

  lemma OccursTwice<T>(xs: seq<T>, i: nat, j: nat)
    requires i < j < |xs|
    ensures xs[i] == xs[j] ==> multiset(xs)[xs[i]] >= 2
  {
    var front, back := xs[..j], xs[j..];
    assert xs == front + back;
    assert front[i] == xs[i] && back[0] == xs[j];
    assert xs[i] in multiset(front) && xs[j] in multiset(back);
  }
}
