/** Sequence alignment by longest common subsequence, proved optimal. */
module Lcs {
  import opened Options

  datatype Op = Align | LeftOnly | RightOnly

  datatype Position<T> = Position(op: Op, left: Option<T>, right: Option<T>)

  // ---------------------------------------------------------------- what a script means

  /** The left items a script mentions, in order. */
  function Lefts<T>(script: seq<Position<T>>): seq<T>
  {
    if script == [] then []
    else (if script[0].left.Some? then [script[0].left.value] else []) + Lefts(script[1..])
  }

  function Rights<T>(script: seq<Position<T>>): seq<T>
  {
    if script == [] then []
    else (if script[0].right.Some? then [script[0].right.value] else []) + Rights(script[1..])
  }

  /** The left items of the ALIGN positions. */
  function Aligned<T>(script: seq<Position<T>>): seq<T>
  {
    if script == [] then []
    else
      (if script[0].op == Align && script[0].left.Some? then [script[0].left.value] else []) + Aligned(script[1..])
  }

  /** Each operation fills exactly the sides it speaks of, and ALIGN joins equal keys. */
  ghost predicate Fills<T>(p: Position<T>)
  {
    match p.op
    case Align => p.left.Some? && p.left == p.right
    case LeftOnly => p.left.Some? && p.right == None
    case RightOnly => p.left == None && p.right.Some?
  }

  ghost predicate WellFormed<T>(script: seq<Position<T>>)
  {
    forall i :: 0 <= i < |script| ==> Fills(script[i])
  }

  ghost predicate Subsequence<T>(z: seq<T>, a: seq<T>)
  {
    z == [] ||
    (a != [] && ((z[0] == a[0] && Subsequence(z[1..], a[1..])) || Subsequence(z, a[1..])))
  }

  /** `script` aligns `a` with `b` along a longest common subsequence. */
  ghost predicate Optimal<T(!new)>(script: seq<Position<T>>, a: seq<T>, b: seq<T>)
  {
    WellFormed(script) && Lefts(script) == a && Rights(script) == b &&
    Subsequence(Aligned(script), a) && Subsequence(Aligned(script), b) &&
    (forall z :: Subsequence(z, a) && Subsequence(z, b) ==> |z| <= |Aligned(script)|) &&
    |script| == |a| + |b| - |Aligned(script)|
  }

  // ---------------------------------------------------------------- the table and the script

  /** Length of a longest common subsequence of `a[i..]` and `b[j..]`. */
  function LcsLength<T(==)>(a: seq<T>, b: seq<T>, i: nat, j: nat): nat
    requires i <= |a| && j <= |b|
    decreases |a| - i + |b| - j
  {
    if i == |a| || j == |b| then 0
    else if a[i] == b[j] then LcsLength(a, b, i + 1, j + 1) + 1
    else
      var skipLeft, skipRight := LcsLength(a, b, i + 1, j), LcsLength(a, b, i, j + 1);
      if skipLeft >= skipRight then skipLeft else skipRight
  }

  /** From `i` and `j` on: align equal keys, otherwise skip on the side that loses nothing. */
  function ScriptFrom<T(==)>(a: seq<T>, b: seq<T>, i: nat, j: nat): seq<Position<T>>
    requires i <= |a| && j <= |b|
    decreases |a| - i + |b| - j
  {
    if i == |a| && j == |b| then []
    else if j == |b| then [Position(LeftOnly, Some(a[i]), None)] + ScriptFrom(a, b, i + 1, j)
    else if i == |a| then [Position(RightOnly, None, Some(b[j]))] + ScriptFrom(a, b, i, j + 1)
    else if a[i] == b[j] then [Position(Align, Some(a[i]), Some(b[j]))] + ScriptFrom(a, b, i + 1, j + 1)
    else if LcsLength(a, b, i + 1, j) >= LcsLength(a, b, i, j + 1)
    then [Position(LeftOnly, Some(a[i]), None)] + ScriptFrom(a, b, i + 1, j)
    else [Position(RightOnly, None, Some(b[j]))] + ScriptFrom(a, b, i, j + 1)
  }

  function Script<T(==)>(a: seq<T>, b: seq<T>): seq<Position<T>>
  {
    ScriptFrom(a, b, 0, 0)
  }

  method FillTable<T(==)>(left: seq<T>, right: seq<T>) returns (dp: array2<nat>)
    ensures fresh(dp) && dp.Length0 == |left| + 1 && dp.Length1 == |right| + 1
    ensures forall i, j :: 0 <= i <= |left| && 0 <= j <= |right| ==> dp[i, j] == LcsLength(left, right, i, j)
  {
    var n, m := |left|, |right|;
    dp := new nat[n + 1, m + 1]((_, _) => 0);
    for i := n downto 0
      invariant forall k :: i <= k <= n ==> RowFilled(left, right, dp, k)
      invariant forall k :: 0 <= k < i ==> dp[k, m] == 0
    {
      label before:
      FillRow(left, right, dp, i);
      forall k | i < k <= n
        ensures RowFilled(left, right, dp, k)
      {
        assert old@before(RowFilled(left, right, dp, k));
      }
    }
    forall i, j | 0 <= i <= n && 0 <= j <= m
      ensures dp[i, j] == LcsLength(left, right, i, j)
    {
      assert RowFilled(left, right, dp, i);
    }
  }

  ghost predicate RowFilled<T>(left: seq<T>, right: seq<T>, dp: array2<nat>, i: nat)
    reads dp
    requires dp.Length0 == |left| + 1 && dp.Length1 == |right| + 1 && i <= |left|
  {
    forall j :: 0 <= j <= |right| ==> dp[i, j] == LcsLength(left, right, i, j)
  }

  /** The inner loop: one row from the row below it. */
  method FillRow<T(==)>(left: seq<T>, right: seq<T>, dp: array2<nat>, i: nat)
    requires dp.Length0 == |left| + 1 && dp.Length1 == |right| + 1 && i < |left| && dp[i, |right|] == 0
    requires RowFilled(left, right, dp, i + 1)
    modifies dp
    ensures RowFilled(left, right, dp, i)
    ensures forall k, j :: 0 <= k <= |left| && k != i && 0 <= j <= |right| ==> dp[k, j] == old(dp[k, j])
  {
    for j := |right| downto 0
      invariant forall l :: j <= l <= |right| ==> dp[i, l] == LcsLength(left, right, i, l)
      invariant forall k, l :: 0 <= k <= |left| && k != i && 0 <= l <= |right| ==> dp[k, l] == old(dp[k, l])
    {
      if left[i] == right[j] {
        dp[i, j] := dp[i + 1, j + 1] + 1;
      } else {
        dp[i, j] := if dp[i + 1, j] >= dp[i, j + 1] then dp[i + 1, j] else dp[i, j + 1];
      }
    }
  }

  method AlignSequences<T(==)>(left: seq<T>, right: seq<T>) returns (script: seq<Position<T>>)
    ensures script == Script(left, right)
  {
    var n, m := |left|, |right|;
    var dp := FillTable(left, right);
    script := [];
    var i, j := 0, 0;
    while i < n && j < m
      invariant i <= n && j <= m
      invariant Script(left, right) == script + ScriptFrom(left, right, i, j)
      modifies {}
      decreases n - i + m - j
    {
      var next: Position<T>;
      ghost var i0, j0 := i, j;
      if left[i] == right[j] {
        next := Position(Align, Some(left[i]), Some(right[j]));
        i, j := i + 1, j + 1;
      } else if dp[i + 1, j] >= dp[i, j + 1] {
        next := Position(LeftOnly, Some(left[i]), None);
        i := i + 1;
      } else {
        next := Position(RightOnly, None, Some(right[j]));
        j := j + 1;
      }
      assert ScriptFrom(left, right, i0, j0) == [next] + ScriptFrom(left, right, i, j);
      Reassociate(script, next, ScriptFrom(left, right, i, j));
      script := script + [next];
    }
    var tail := OneSided(left, right, i, j);
    script := script + tail;
  }

  lemma Reassociate<T>(done: seq<T>, next: T, rest: seq<T>)
    ensures done + ([next] + rest) == (done + [next]) + rest
  {
  }

  /** Once one side is used up, the rest of the other side stands alone. */
  method OneSided<T(==)>(left: seq<T>, right: seq<T>, from: nat, start: nat) returns (script: seq<Position<T>>)
    requires from <= |left| && start <= |right| && (from == |left| || start == |right|)
    ensures script == ScriptFrom(left, right, from, start)
  {
    script := [];
    var i, j := from, start;
    while i < |left|
      invariant from <= i <= |left| && (i < |left| ==> j == |right|)
      invariant ScriptFrom(left, right, from, start) == script + ScriptFrom(left, right, i, j)
    {
      Reassociate(script, Position(LeftOnly, Some(left[i]), None), ScriptFrom(left, right, i + 1, j));
      script := script + [Position(LeftOnly, Some(left[i]), None)];
      i := i + 1;
    }
    while j < |right|
      invariant start <= j <= |right|
      invariant ScriptFrom(left, right, from, start) == script + ScriptFrom(left, right, i, j)
    {
      Reassociate(script, Position(RightOnly, None, Some(right[j])), ScriptFrom(left, right, i, j + 1));
      script := script + [Position(RightOnly, None, Some(right[j]))];
      j := j + 1;
    }
  }

  // ---------------------------------------------------------------- optimality

  lemma {:induction false} SubsequenceDrop<T>(z: seq<T>, a: seq<T>)
    requires z != [] && Subsequence(z, a)
    ensures a != [] && Subsequence(z[1..], a[1..])
  {
    if !(z[0] == a[0] && Subsequence(z[1..], a[1..])) {
      SubsequenceDrop(z, a[1..]);
      SubsequenceGrow(z[1..], a[1..]);
    }
  }

  lemma SubsequenceGrow<T>(z: seq<T>, a: seq<T>)
    requires a != [] && Subsequence(z, a[1..])
    ensures Subsequence(z, a)
  {
  }

  /** No common subsequence is longer than the table says. */
  lemma {:induction false} LcsIsUpperBound<T>(z: seq<T>, a: seq<T>, b: seq<T>, i: nat, j: nat)
    requires i <= |a| && j <= |b| && Subsequence(z, a[i..]) && Subsequence(z, b[j..])
    ensures |z| <= LcsLength(a, b, i, j)
    decreases |a| - i + |b| - j
  {
    if z != [] {
      assert a[i..][1..] == a[i + 1..] && b[j..][1..] == b[j + 1..];
      if a[i] == b[j] {
        SubsequenceDrop(z, a[i..]);
        SubsequenceDrop(z, b[j..]);
        LcsIsUpperBound(z[1..], a, b, i + 1, j + 1);
      } else if z[0] != a[i] {
        LcsIsUpperBound(z, a, b, i + 1, j);
      } else {
        LcsIsUpperBound(z, a, b, i, j + 1);
      }
    }
  }

  /** What the script from `i` and `j` says about the two remaining sequences. */
  ghost predicate Projects<T>(script: seq<Position<T>>, a: seq<T>, b: seq<T>, i: nat, j: nat)
    requires i <= |a| && j <= |b|
  {
    WellFormed(script) && Lefts(script) == a[i..] && Rights(script) == b[j..] &&
    |Aligned(script)| == LcsLength(a, b, i, j) &&
    |script| == |a| - i + |b| - j - LcsLength(a, b, i, j)
  }

  lemma PrependPosition<T>(p: Position<T>, rest: seq<Position<T>>)
    requires Fills(p) && WellFormed(rest)
    ensures var script := [p] + rest;
      WellFormed(script) && Lefts(script) == (if p.left.Some? then [p.left.value] else []) + Lefts(rest) &&
      Rights(script) == (if p.right.Some? then [p.right.value] else []) + Rights(rest) &&
      |Aligned(script)| == |Aligned(rest)| + if p.op == Align then 1 else 0
  {
    assert ([p] + rest)[1..] == rest;
  }

  lemma ProjectsLeft<T>(rest: seq<Position<T>>, a: seq<T>, b: seq<T>, i: nat, j: nat)
    requires i < |a| && j <= |b| && Projects(rest, a, b, i + 1, j)
    requires LcsLength(a, b, i, j) == LcsLength(a, b, i + 1, j)
    ensures Projects([Position(LeftOnly, Some(a[i]), None)] + rest, a, b, i, j)
  {
    PrependPosition(Position(LeftOnly, Some(a[i]), None), rest);
  }

  lemma ProjectsRight<T>(rest: seq<Position<T>>, a: seq<T>, b: seq<T>, i: nat, j: nat)
    requires i <= |a| && j < |b| && Projects(rest, a, b, i, j + 1)
    requires LcsLength(a, b, i, j) == LcsLength(a, b, i, j + 1)
    ensures Projects([Position(RightOnly, None, Some(b[j]))] + rest, a, b, i, j)
  {
    PrependPosition(Position(RightOnly, None, Some(b[j])), rest);
  }

  lemma ProjectsBoth<T>(rest: seq<Position<T>>, a: seq<T>, b: seq<T>, i: nat, j: nat)
    requires i < |a| && j < |b| && a[i] == b[j] && Projects(rest, a, b, i + 1, j + 1)
    ensures Projects([Position(Align, Some(a[i]), Some(b[j]))] + rest, a, b, i, j)
  {
    PrependPosition(Position(Align, Some(a[i]), Some(b[j])), rest);
  }

  lemma {:induction false} ScriptProjects<T>(a: seq<T>, b: seq<T>, i: nat, j: nat)
    requires i <= |a| && j <= |b|
    ensures Projects(ScriptFrom(a, b, i, j), a, b, i, j)
    decreases |a| - i + |b| - j
  {
    if i < |a| && (j == |b| || (a[i] != b[j] && LcsLength(a, b, i + 1, j) >= LcsLength(a, b, i, j + 1))) {
      ScriptProjects(a, b, i + 1, j);
      ProjectsLeft(ScriptFrom(a, b, i + 1, j), a, b, i, j);
    } else if j < |b| && (i == |a| || a[i] != b[j]) {
      ScriptProjects(a, b, i, j + 1);
      ProjectsRight(ScriptFrom(a, b, i, j + 1), a, b, i, j);
    } else if i < |a| && j < |b| {
      ScriptProjects(a, b, i + 1, j + 1);
      ProjectsBoth(ScriptFrom(a, b, i + 1, j + 1), a, b, i, j);
    }
  }

  lemma {:induction false} AlignedIsCommon<T>(script: seq<Position<T>>)
    requires WellFormed(script)
    ensures Subsequence(Aligned(script), Lefts(script)) && Subsequence(Aligned(script), Rights(script))
  {
    if script != [] {
      assert forall i :: 0 <= i < |script[1..]| ==> script[1..][i] == script[i + 1];
      AlignedIsCommon(script[1..]);
      var z, l, r := Aligned(script[1..]), Lefts(script[1..]), Rights(script[1..]);
      assert Fills(script[0]);
      match script[0].op
      case Align =>
        var x := script[0].left.value;
        assert Aligned(script) == [x] + z && Lefts(script) == [x] + l && Rights(script) == [x] + r;
      case LeftOnly =>
        assert Aligned(script) == z && Lefts(script)[1..] == l && Rights(script) == r;
        SubsequenceGrow(z, Lefts(script));
      case RightOnly =>
        assert Aligned(script) == z && Lefts(script) == l && Rights(script)[1..] == r;
        SubsequenceGrow(z, Rights(script));
    }
  }

  /** The script aligns along a longest common subsequence and is as short as that allows. */
  lemma ScriptIsOptimal<T(!new)>(a: seq<T>, b: seq<T>)
    ensures Optimal(Script(a, b), a, b)
  {
    ScriptProjects(a, b, 0, 0);
    AlignedIsCommon(Script(a, b));
    assert a[0..] == a && b[0..] == b;
    forall z | Subsequence(z, a) && Subsequence(z, b)
      ensures |z| <= |Aligned(Script(a, b))|
    {
      LcsIsUpperBound(z, a, b, 0, 0);
    }
  }

  // ---------------------------------------------------------------- which of the optimal scripts

  ghost predicate Common<T>(z: seq<T>, a: seq<T>, b: seq<T>)
  {
    Subsequence(z, a) && Subsequence(z, b)
  }

  /** Skipping the first left item loses length against skipping the first right one. */
  ghost predicate RightFirst<T(!new)>(a: seq<T>, b: seq<T>)
    requires a != [] && b != []
  {
    exists z :: Common(z, a, b[1..]) && forall y :: Common(y, a[1..], b) ==> |y| < |z|
  }

  /**
   * The script aligns equal heads at once; of two different heads it skips the left one, unless that
   * loses length.
   */
  ghost predicate Greedy<T(!new)>(script: seq<Position<T>>, a: seq<T>, b: seq<T>)
  {
    if script == [] then a == [] && b == []
    else match script[0].op
      case Align =>
        a != [] && b != [] && a[0] == b[0] && script[0] == Position(Align, Some(a[0]), Some(b[0])) &&
        Greedy(script[1..], a[1..], b[1..])
      case LeftOnly =>
        a != [] && script[0] == Position(LeftOnly, Some(a[0]), None) &&
        (b == [] || (a[0] != b[0] && !RightFirst(a, b))) && Greedy(script[1..], a[1..], b)
      case RightOnly =>
        b != [] && script[0] == Position(RightOnly, None, Some(b[0])) &&
        (a == [] || (a[0] != b[0] && RightFirst(a, b))) && Greedy(script[1..], a, b[1..])
  }

  lemma LcsIsAttained<T>(a: seq<T>, b: seq<T>, i: nat, j: nat) returns (z: seq<T>)
    requires i <= |a| && j <= |b|
    ensures Common(z, a[i..], b[j..]) && |z| == LcsLength(a, b, i, j)
  {
    ScriptProjects(a, b, i, j);
    AlignedIsCommon(ScriptFrom(a, b, i, j));
    z := Aligned(ScriptFrom(a, b, i, j));
  }

  lemma RightFirstIff<T(!new)>(a: seq<T>, b: seq<T>, i: nat, j: nat)
    requires i < |a| && j < |b|
    ensures RightFirst(a[i..], b[j..]) <==> LcsLength(a, b, i + 1, j) < LcsLength(a, b, i, j + 1)
  {
    assert a[i..][1..] == a[i + 1..] && b[j..][1..] == b[j + 1..];
    var left := LcsIsAttained(a, b, i + 1, j);
    var right := LcsIsAttained(a, b, i, j + 1);
    forall y | Common(y, a[i + 1..], b[j..])
      ensures |y| <= |left|
    {
      LcsIsUpperBound(y, a, b, i + 1, j);
    }
    forall z | Common(z, a[i..], b[j + 1..])
      ensures |z| <= |right|
    {
      LcsIsUpperBound(z, a, b, i, j + 1);
    }
  }

  lemma {:induction false} ScriptFromIsGreedy<T(!new)>(a: seq<T>, b: seq<T>, i: nat, j: nat)
    requires i <= |a| && j <= |b|
    ensures Greedy(ScriptFrom(a, b, i, j), a[i..], b[j..])
    decreases |a| - i + |b| - j
  {
    var script := ScriptFrom(a, b, i, j);
    if i < |a| && j < |b| { RightFirstIff(a, b, i, j); }
    if i < |a| { assert a[i..][1..] == a[i + 1..]; }
    if j < |b| { assert b[j..][1..] == b[j + 1..]; }
    if i == |a| && j == |b| {
    } else if j == |b| || (i < |a| && a[i] != b[j] && LcsLength(a, b, i + 1, j) >= LcsLength(a, b, i, j + 1)) {
      ScriptFromIsGreedy(a, b, i + 1, j);
      assert script[1..] == ScriptFrom(a, b, i + 1, j);
    } else if i == |a| || a[i] != b[j] {
      ScriptFromIsGreedy(a, b, i, j + 1);
      assert script[1..] == ScriptFrom(a, b, i, j + 1);
    } else {
      ScriptFromIsGreedy(a, b, i + 1, j + 1);
      assert script[1..] == ScriptFrom(a, b, i + 1, j + 1);
    }
  }

  lemma {:induction false} GreedyIsUnique<T(!new)>(s: seq<Position<T>>, s': seq<Position<T>>, a: seq<T>, b: seq<T>)
    requires Greedy(s, a, b) && Greedy(s', a, b)
    ensures s == s'
    decreases |s|
  {
    if s != [] {
      assert s[0] == s'[0];
      GreedyIsUnique(s[1..], s'[1..], if s[0].op == RightOnly then a else a[1..],
                     if s[0].op == LeftOnly then b else b[1..]);
      assert s == [s[0]] + s[1..] && s' == [s'[0]] + s'[1..];
    }
  }

  /** The script is the one that aligns equal heads and skips on the left wherever that costs nothing. */
  lemma ScriptIsGreedy<T(!new)>(a: seq<T>, b: seq<T>, script: seq<Position<T>>)
    ensures Greedy(script, a, b) <==> script == Script(a, b)
  {
    ScriptFromIsGreedy(a, b, 0, 0);
    assert a[0..] == a && b[0..] == b;
    if Greedy(script, a, b) { GreedyIsUnique(script, Script(a, b), a, b); }
  }

  // ---------------------------------------------------------------- order change

  /** A script consists of ALIGN positions only exactly when nothing moved. */
  lemma AllAlignedIffEqual<T>(a: seq<T>, b: seq<T>)
    ensures (forall i :: 0 <= i < |Script(a, b)| ==> Script(a, b)[i].op == Align) <==> a == b
  {
    ScriptProjects(a, b, 0, 0);
    if a == b {
      ScriptOfEqual(a, 0);
    } else if forall i :: 0 <= i < |Script(a, b)| ==> Script(a, b)[i].op == Align {
      SidesAgree(Script(a, b));
    }
  }

  lemma {:induction false} ScriptOfEqual<T>(a: seq<T>, i: nat)
    requires i <= |a|
    ensures forall k :: 0 <= k < |ScriptFrom(a, a, i, i)| ==> ScriptFrom(a, a, i, i)[k].op == Align
    decreases |a| - i
  {
    if i < |a| { ScriptOfEqual(a, i + 1); }
  }

  lemma {:induction false} SidesAgree<T>(script: seq<Position<T>>)
    requires WellFormed(script) && forall i :: 0 <= i < |script| ==> script[i].op == Align
    ensures Lefts(script) == Rights(script)
  {
    if script != [] {
      assert forall i :: 0 <= i < |script[1..]| ==> script[1..][i] == script[i + 1];
      SidesAgree(script[1..]);
    }
  }
}
