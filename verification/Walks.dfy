/** The two explicit-stack walks down a tree, proved against the parent links. */
module Walks {
  import opened Options
  import opened Ordering
  import opened Trees

  /** Whatever lies below `a` lies at or below one of its children. */
  lemma {:induction false} BelowInduction(t: Tree, a: NodeRef, closed: set<NodeRef>, n: NodeRef, k: nat)
    requires t.Valid() && n in t.nodes && k > 0 && t.Up(n, k) == Some(a)
    requires forall c :: HangsFrom(t, a, closed, c) ==> c in closed
    ensures n in closed
    decreases k
  {
    assert t.LinksAt(n);
    if k > 1 {
      BelowInduction(t, a, closed, t.nodes[n].parent.value, k - 1);
    }
  }

  lemma BelowStep(t: Tree, n: NodeRef, p: NodeRef, a: NodeRef)
    requires n in t.nodes && t.nodes[n].parent == Some(p) && t.AtOrBelow(p, a)
    ensures t.StrictlyBelow(n, a)
  {
    var k: nat :| t.Up(p, k) == Some(a);
    assert t.Up(n, k + 1) == Some(a);
  }

  ghost predicate HangsFrom(t: Tree, a: NodeRef, done: set<NodeRef>, n: NodeRef)
  {
    n in t.nodes && t.nodes[n].parent.Some? && t.nodes[n].parent.value in done + {a}
  }

  /** Stacked nodes wait below processed ones, and every child of a processed node is accounted for. */
  ghost predicate Frontier(t: Tree, a: NodeRef, done: set<NodeRef>, stack: seq<NodeRef>)
  {
    Distinct(stack) &&
    (forall n :: n in stack ==> n !in done && n != a && HangsFrom(t, a, done, n)) &&
    (forall n :: n in done ==> t.StrictlyBelow(n, a) && HangsFrom(t, a, done, n)) &&
    forall c :: HangsFrom(t, a, done, c) ==> c in done || c in stack
  }

  lemma FrontierStarts(t: Tree, a: NodeRef)
    requires t.Valid() && a in t.nodes
    ensures Frontier(t, a, {}, t.nodes[a].children)
  {
    forall c
      ensures c in t.nodes[a].children <==> c in t.nodes && t.nodes[c].parent == Some(a)
    {
      ChildIffParent(t, c, a);
    }
    NotBelowItself(t, a);
  }

  lemma FrontierTopIsBelow(t: Tree, a: NodeRef, done: set<NodeRef>, stack: seq<NodeRef>)
    requires t.Valid() && a in t.nodes && Frontier(t, a, done, stack) && stack != []
    ensures t.StrictlyBelow(stack[|stack| - 1], a)
  {
    var n := stack[|stack| - 1];
    assert n in stack;
    var p := t.nodes[n].parent.value;
    if p == a {
      assert t.Up(p, 0) == Some(a);
    } else {
      var k: nat :| k > 0 && t.Up(p, k) == Some(a);
    }
    BelowStep(t, n, p, a);
  }

  lemma FrontierAdvances(t: Tree, a: NodeRef, done: set<NodeRef>, stack: seq<NodeRef>)
    requires t.Valid() && a in t.nodes && Frontier(t, a, done, stack) && stack != []
    ensures var n := stack[|stack| - 1];
      n in t.nodes && n !in done && Frontier(t, a, done + {n}, stack[..|stack| - 1] + t.nodes[n].children)
  {
    var n, rest := stack[|stack| - 1], stack[..|stack| - 1];
    assert n in stack && stack == rest + [n];
    FrontierTopIsBelow(t, a, done, stack);
    ChildrenOfTopAreNew(t, a, done, stack);
    assert forall c :: c in rest ==> c in stack;
    DistinctConcat(rest, t.nodes[n].children);
    forall c
      ensures HangsFrom(t, a, done + {n}, c) <==> HangsFrom(t, a, done, c) || c in t.nodes[n].children
    {
      ChildIffParent(t, c, n);
    }
    FrontierSwaps(t, a, done, rest, n);
  }

  /** The top leaves the stack for the processed nodes and its children take its place. */
  lemma FrontierSwaps(t: Tree, a: NodeRef, done: set<NodeRef>, rest: seq<NodeRef>, n: NodeRef)
    requires n in t.nodes && n !in done && t.StrictlyBelow(n, a) && Frontier(t, a, done, rest + [n])
    requires Distinct(rest + t.nodes[n].children)
    requires forall c :: c in t.nodes[n].children ==> c !in done && c != n && c != a
    requires forall c :: HangsFrom(t, a, done + {n}, c) <==> HangsFrom(t, a, done, c) || c in t.nodes[n].children
    ensures Frontier(t, a, done + {n}, rest + t.nodes[n].children)
  {
    var stack := rest + [n];
    assert stack[|rest|] == n && forall i :: 0 <= i < |rest| ==> stack[i] == rest[i];
    assert forall c :: c in stack <==> c in rest || c == n;
  }

  lemma ChildrenOfTopAreNew(t: Tree, a: NodeRef, done: set<NodeRef>, stack: seq<NodeRef>)
    requires t.Valid() && a in t.nodes && Frontier(t, a, done, stack) && stack != []
    ensures stack[|stack| - 1] in t.nodes
    ensures forall c :: c in t.nodes[stack[|stack| - 1]].children ==> c !in done && c !in stack && c != a
  {
    var n := stack[|stack| - 1];
    assert n in stack;
    FrontierTopIsBelow(t, a, done, stack);
    forall c | c in t.nodes[n].children
      ensures c !in done && c !in stack && c != a
    {
      ChildIffParent(t, c, n);
      AncestorIsNotChild(t, a, n, c);
      assert !HangsFrom(t, a, done, c);
    }
  }

  lemma AncestorIsNotChild(t: Tree, a: NodeRef, n: NodeRef, c: NodeRef)
    requires t.Valid() && a in t.nodes && n in t.nodes && c in t.nodes && t.nodes[c].parent == Some(n)
    requires t.StrictlyBelow(n, a)
    ensures c != a
  {
    var k: nat :| k > 0 && t.Up(n, k) == Some(a);
    LevelOfUp(t, n, k);
    LevelOfParent(t, c);
  }

  lemma FrontierEmpty(t: Tree, a: NodeRef, done: set<NodeRef>)
    requires t.Valid() && a in t.nodes && Frontier(t, a, done, [])
    ensures forall n :: n in done <==> n in t.nodes && t.StrictlyBelow(n, a)
  {
    forall n | n in t.nodes && t.StrictlyBelow(n, a)
      ensures n in done
    {
      var k: nat :| k > 0 && t.Up(n, k) == Some(a);
      BelowInduction(t, a, done, n, k);
    }
  }

  /** `_descendants`: exactly the strict descendants; it stops because no node is stacked twice. */
  method Descendants(t: Tree, a: NodeRef) returns (result: set<NodeRef>)
    requires t.Valid() && a in t.nodes
    ensures forall n :: n in result <==> n in t.nodes && t.StrictlyBelow(n, a)
  {
    result := {};
    var stack := t.nodes[a].children;
    FrontierStarts(t, a);
    while stack != []
      invariant Frontier(t, a, result, stack)
      decreases t.nodes.Keys - result
    {
      FrontierAdvances(t, a, result, stack);
      var current := stack[|stack| - 1];
      stack := stack[..|stack| - 1];
      result := result + {current};
      stack := stack + t.nodes[current].children;
    }
    FrontierEmpty(t, a, result);
  }

  // ---------------------------------------------------------------- depth

  /** Path lengths count the nodes from the root, so the root alone has depth one. */
  lemma {:induction false} PathLengthIsLevel(t: Tree, p: seq<NodeRef>)
    requires t.Valid() && t.ChildPath(p)
    ensures |p| == Level(t, p[|p| - 1]) + 1
    decreases |p|
  {
    if |p| == 1 {
      LevelOfParent(t, t.root);
    } else {
      var q := p[..|p| - 1];
      assert p[|p| - 2 + 1] in t.nodes[p[|p| - 2]].children;
      ChildIffParent(t, p[|p| - 1], p[|p| - 2]);
      LevelOfParent(t, p[|p| - 1]);
      PathLengthIsLevel(t, q);
    }
  }

  lemma {:induction false} PathOfLevel(t: Tree, n: NodeRef) returns (p: seq<NodeRef>)
    requires t.Valid() && n in t.nodes
    ensures t.ChildPathTo(p, n) && |p| == Level(t, n) + 1
    decreases Level(t, n)
  {
    LevelOfParent(t, n);
    if n == t.root {
      p := [n];
    } else {
      ChildIffParent(t, n, t.nodes[n].parent.value);
      var q := PathOfLevel(t, t.nodes[n].parent.value);
      p := q + [n];
    }
  }

  /** `depth` is the length of a longest child path from the root. */
  ghost predicate IsDepth(t: Tree, depth: nat)
  {
    (exists p :: t.ChildPath(p) && |p| == depth) && forall p :: t.ChildPath(p) ==> |p| <= depth
  }

  function RefsOf(stack: seq<(NodeRef, nat)>): seq<NodeRef>
  {
    seq(|stack|, i requires 0 <= i < |stack| => stack[i].0)
  }

  ghost predicate LevelsKnown(t: Tree, stack: seq<(NodeRef, nat)>)
    requires t.Valid()
  {
    forall i :: 0 <= i < |stack| ==> stack[i].0 in t.nodes && stack[i].1 == Level(t, stack[i].0) + 1
  }

  /** All processed nodes are at most `depth` deep, one of them exactly. */
  ghost predicate DeepestSoFar(t: Tree, done: set<NodeRef>, depth: nat)
    requires t.Valid() && done <= t.nodes.Keys
  {
    (forall n :: n in done ==> Level(t, n) < depth) &&
    (done != {} ==> exists n :: n in done && Level(t, n) + 1 == depth)
  }

  lemma DeepestGrows(t: Tree, done: set<NodeRef>, depth: nat, n: NodeRef)
    requires t.Valid() && done <= t.nodes.Keys && n in t.nodes && DeepestSoFar(t, done, depth)
    requires depth > 0 ==> done != {}
    ensures DeepestSoFar(t, done + {n}, if depth < Level(t, n) + 1 then Level(t, n) + 1 else depth)
  {
    if Level(t, n) + 1 < depth {
      var m :| m in done && Level(t, m) + 1 == depth;
      assert m in done + {n};
    } else {
      assert n in done + {n};
    }
  }

  lemma DepthFromLevels(t: Tree, done: set<NodeRef>, depth: nat)
    requires t.Valid() && done == t.nodes.Keys && DeepestSoFar(t, done, depth)
    ensures IsDepth(t, depth)
  {
    assert t.root in done;
    var n :| n in done && Level(t, n) + 1 == depth;
    var p := PathOfLevel(t, n);
    assert t.ChildPath(p);
    forall q | t.ChildPath(q)
      ensures |q| <= depth
    {
      PathLengthIsLevel(t, q);
    }
  }

  lemma AllAreRootOrBelow(t: Tree, n: NodeRef)
    requires t.Valid() && n in t.nodes && n != t.root
    ensures t.StrictlyBelow(n, t.root)
  {
    LevelOfParent(t, n);
    assert t.Up(n, Level(t, n)) == Some(t.root);
  }

  method PushChildren(t: Tree, n: NodeRef, d: nat, stack: seq<(NodeRef, nat)>) returns (pushed: seq<(NodeRef, nat)>)
    requires t.Valid() && n in t.nodes && d == Level(t, n) + 1 && LevelsKnown(t, stack)
    ensures RefsOf(pushed) == RefsOf(stack) + t.nodes[n].children && LevelsKnown(t, pushed)
  {
    pushed := stack;
    var cs := t.nodes[n].children;
    for i := 0 to |cs|
      invariant RefsOf(pushed) == RefsOf(stack) + cs[..i] && LevelsKnown(t, pushed)
    {
      ChildIffParent(t, cs[i], n);
      LevelOfParent(t, cs[i]);
      pushed := pushed + [(cs[i], d + 1)];
      assert cs[..i + 1] == cs[..i] + [cs[i]];
      assert RefsOf(pushed) == RefsOf(pushed[..|pushed| - 1]) + [cs[i]];
    }
    assert cs[..|cs|] == cs;
  }

  /** The whole walk so far: first the root alone, then the frontier below it. */
  ghost predicate Walking(t: Tree, done: set<NodeRef>, below: set<NodeRef>, refs: seq<NodeRef>)
  {
    done <= t.nodes.Keys &&
    if done == {} then below == {} && refs == [t.root] else done == below + {t.root} && Frontier(t, t.root, below, refs)
  }

  lemma WalkStep(t: Tree, done: set<NodeRef>, below: set<NodeRef>, refs: seq<NodeRef>) returns (below': set<NodeRef>)
    requires t.Valid() && Walking(t, done, below, refs) && refs != []
    ensures var n := refs[|refs| - 1];
      n in t.nodes && n !in done && Walking(t, done + {n}, below', refs[..|refs| - 1] + t.nodes[n].children)
  {
    var n := refs[|refs| - 1];
    if done == {} {
      below' := {};
      FrontierStarts(t, t.root);
      assert refs[..|refs| - 1] + t.nodes[n].children == t.nodes[n].children;
    } else {
      below' := below + {n};
      FrontierAdvances(t, t.root, below, refs);
      assert n in refs;
    }
  }

  lemma WalkEnds(t: Tree, done: set<NodeRef>, below: set<NodeRef>)
    requires t.Valid() && Walking(t, done, below, [])
    ensures done == t.nodes.Keys
  {
    FrontierEmpty(t, t.root, below);
    forall n | n in t.nodes && n != t.root
      ensures n in below
    {
      AllAreRootOrBelow(t, n);
    }
  }

  /** `tree_depth`: the length of a longest root path, counting nodes. */
  method TreeDepth(t: Tree) returns (depth: nat)
    requires t.Valid()
    ensures IsDepth(t, depth)
  {
    LevelOfParent(t, t.root);
    depth := 0;
    var stack: seq<(NodeRef, nat)> := [(t.root, 1)];
    ghost var done: set<NodeRef> := {};
    ghost var below: set<NodeRef> := {};
    while stack != []
      invariant Walking(t, done, below, RefsOf(stack)) && LevelsKnown(t, stack)
      invariant DeepestSoFar(t, done, depth) && (depth > 0 ==> done != {})
      decreases t.nodes.Keys - done
    {
      var node, d := stack[|stack| - 1].0, stack[|stack| - 1].1;
      ghost var refs := RefsOf(stack);
      below := WalkStep(t, done, below, refs);
      stack := stack[..|stack| - 1];
      assert refs[..|refs| - 1] == RefsOf(stack);
      DeepestGrows(t, done, depth, node);
      depth := if depth < d then d else depth;
      stack := PushChildren(t, node, d, stack);
      done := done + {node};
    }
    WalkEnds(t, done, below);
    DepthFromLevels(t, done, depth);
  }
}
