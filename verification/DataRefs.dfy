/** Node handles of adapted data trees: dotted decimal positions, one string per position. */
module DataRefs {
  import opened Ordering

  /** The child indexes on the way from the document node. */
  type Position = seq<nat>

  function Digit(n: nat): char
    requires n < 10
  {
    "0123456789"[n]
  }

  /** Python's rendering of a natural number. */
  function Decimal(n: nat): (s: string)
    ensures s != []
  {
    if n < 10 then [Digit(n)] else Decimal(n / 10) + [Digit(n % 10)]
  }

  function Ref(p: Position): NodeRef
  {
    if p == [] then "n" else Ref(Front(p)) + "." + Decimal(Last(p))
  }

  function Front<T>(p: seq<T>): seq<T>
    requires p != []
  {
    p[..|p| - 1]
  }

  function Last<T>(p: seq<T>): T
    requires p != []
  {
    p[|p| - 1]
  }

  function ChildRefs(p: Position, n: nat): seq<NodeRef>
  {
    seq(n, i requires 0 <= i < n => Ref(p + [i]))
  }

  lemma RefOfChild(p: Position, i: nat)
    ensures Ref(p + [i]) == Ref(p) + "." + Decimal(i)
  {
    assert Front(p + [i]) == p;
  }

  // ---------------------------------------------------------------- injectivity

  lemma {:induction false} DecimalHasNoDot(n: nat)
    ensures '.' !in Decimal(n)
  {
    if n >= 10 { DecimalHasNoDot(n / 10); }
  }

  lemma DigitInjective(a: nat, b: nat)
    requires a < 10 && b < 10 && Digit(a) == Digit(b)
    ensures a == b
  {
    assert forall i, j :: 0 <= i < j < 10 ==> "0123456789"[i] != "0123456789"[j];
  }

  lemma {:induction false} DecimalInjective(a: nat, b: nat)
    requires Decimal(a) == Decimal(b)
    ensures a == b
  {
    var x, y := Decimal(a), Decimal(b);
    assert x[|x| - 1] == Digit(a % 10) && y[|y| - 1] == Digit(b % 10);
    DigitInjective(a % 10, b % 10);
    if a >= 10 && b >= 10 {
      assert Decimal(a / 10) == x[..|x| - 1] == Decimal(b / 10);
      DecimalInjective(a / 10, b / 10);
    }
  }

  lemma LastDot(a: string, d: string)
    requires '.' !in d
    ensures var s := a + "." + d;
      s[|a|] == '.' && forall k :: |a| < k < |s| ==> s[k] != '.'
  {
    var s := a + "." + d;
    forall k | |a| < k < |s|
      ensures s[k] != '.'
    {
      assert s[k] == d[k - |a| - 1];
    }
  }

  /** The part after the last dot and the part before it are determined by the whole. */
  lemma SplitAtLastDot(a: string, d: string, b: string, e: string)
    requires a + "." + d == b + "." + e && '.' !in d && '.' !in e
    ensures a == b && d == e
  {
    var s := a + "." + d;
    LastDot(a, d);
    LastDot(b, e);
    assert a == s[..|a|] && b == s[..|b|];
    assert d == s[|a| + 1..] && e == s[|b| + 1..];
  }

  lemma RefOfLength(p: Position)
    ensures p == [] <==> |Ref(p)| == 1
  {
    if p != [] { assert |Ref(p)| == |Ref(Front(p))| + 1 + |Decimal(Last(p))|; }
  }

  /** Different positions have different handles. */
  lemma {:induction false} RefInjective(p: Position, q: Position)
    ensures Ref(p) == Ref(q) <==> p == q
    decreases |p|
  {
    RefOfLength(p);
    RefOfLength(q);
    if p != [] && q != [] && Ref(p) == Ref(q) {
      DecimalHasNoDot(Last(p));
      DecimalHasNoDot(Last(q));
      SplitAtLastDot(Ref(Front(p)), Decimal(Last(p)), Ref(Front(q)), Decimal(Last(q)));
      DecimalInjective(Last(p), Last(q));
      RefInjective(Front(p), Front(q));
      assert p == Front(p) + [Last(p)] && q == Front(q) + [Last(q)];
    }
  }

  lemma ChildRefsDistinct(p: Position, n: nat)
    ensures Distinct(ChildRefs(p, n))
  {
    forall i, j | 0 <= i < j < n
      ensures Ref(p + [i]) != Ref(p + [j])
    {
      assert (p + [i])[|p|] != (p + [j])[|p|];
      RefInjective(p + [i], p + [j]);
    }
  }
}
