/** Whole-tree validation, proved to accept exactly the rooted trees. */
module TreeValidator {
  import opened Options
  import opened Ordering
  import opened Trees

  datatype Code =
    | DanglingChildRef
    | ParentChildDisagreement
    | DanglingParentRef
    | MissingFromParentChildren
    | MultipleRoots
    | ContainmentCycle

  datatype Violation = Violation(code: Code, node: NodeRef)

  // ---------------------------------------------------------------- what must be reported

  function ChildReport(t: Tree, n: NodeRef, c: NodeRef): seq<Violation>
  {
    if c !in t.nodes then [Violation(DanglingChildRef, n)]
    else if t.nodes[c].parent != Some(n) then [Violation(ParentChildDisagreement, c)]
    else []
  }

  /** Reports for the first `k` child references of `n`. */
  function ChildReports(t: Tree, n: NodeRef, cs: seq<NodeRef>, k: nat): seq<Violation>
    requires k <= |cs|
    decreases k
  {
    if k == 0 then [] else ChildReports(t, n, cs, k - 1) + ChildReport(t, n, cs[k - 1])
  }

  function ParentReport(t: Tree, n: NodeRef): seq<Violation>
    requires n in t.nodes
  {
    match t.nodes[n].parent
    case None => []
    case Some(p) =>
      if p !in t.nodes then [Violation(DanglingParentRef, n)]
      else if n !in t.nodes[p].children then [Violation(MissingFromParentChildren, n)]
      else []
  }

  function ChildrenReport(t: Tree, n: NodeRef): seq<Violation>
    requires n in t.nodes
  {
    ChildReports(t, n, t.nodes[n].children, |t.nodes[n].children|)
  }

  /** Link reports for the first `k` nodes of `refs`. */
  function LinkReports(t: Tree, refs: seq<NodeRef>, k: nat): seq<Violation>
    requires k <= |refs| && forall i :: 0 <= i < |refs| ==> refs[i] in t.nodes
    decreases k
  {
    if k == 0 then []
    else LinkReports(t, refs, k - 1) + ChildrenReport(t, refs[k - 1]) + ParentReport(t, refs[k - 1])
  }

  function RootReports(t: Tree, refs: seq<NodeRef>, k: nat): seq<Violation>
    requires k <= |refs| && forall i :: 0 <= i < |refs| ==> refs[i] in t.nodes
    decreases k
  {
    if k == 0 then []
    else
      RootReports(t, refs, k - 1) +
      if t.nodes[refs[k - 1]].parent == None && refs[k - 1] != t.root
      then [Violation(MultipleRoots, refs[k - 1])] else []
  }

  ghost function CycleReports(t: Tree, refs: seq<NodeRef>, k: nat): seq<Violation>
    requires k <= |refs|
    decreases k
  {
    if k == 0 then []
    else
      CycleReports(t, refs, k - 1) +
      if t.WalkRepeats(refs[k - 1]) then [Violation(ContainmentCycle, refs[k - 1])] else []
  }

  /** Every violation, in the order of the sorted references `refs` of the tree. */
  ghost function Reports(t: Tree, refs: seq<NodeRef>): seq<Violation>
    requires Sorts(refs, t.nodes.Keys)
  {
    assert forall i :: 0 <= i < |refs| ==> refs[i] in refs;
    LinkReports(t, refs, |refs|) + RootReports(t, refs, |refs|) + CycleReports(t, refs, |refs|)
  }

  // ---------------------------------------------------------------- the validator

  /** Walks parent links from `n`; it stops by pigeonhole and reports exactly a repeat. */
  method WalksIntoCycle(t: Tree, n: NodeRef) returns (cyclic: bool)
    ensures cyclic <==> t.WalkRepeats(n)
  {
    var seen: set<NodeRef> := {};
    var current := Some(n);
    ghost var walk: seq<NodeRef> := [];
    while current.Some?
      invariant Distinct(walk) && forall m :: m in seen <==> m in walk
      invariant seen <= t.nodes.Keys
      invariant forall k :: 0 <= k < |walk| ==> t.Up(n, k) == Some(walk[k])
      invariant current == t.Up(n, |walk|)
      decreases t.nodes.Keys - seen
    {
      if current.value in seen {
        ghost var k :| 0 <= k < |walk| && walk[k] == current.value;
        assert t.Up(n, k) == t.Up(n, |walk|);
        return true;
      }
      UpSucc(t, n, |walk|);
      seen := seen + {current.value};
      walk := walk + [current.value];
      if current.value !in t.nodes {
        break;
      }
      current := t.nodes[current.value].parent;
    }
    StopsWithoutRepeat(t, n, walk);
    return false;
  }

  method DetectCycles(t: Tree, refs: seq<NodeRef>) returns (violations: seq<Violation>)
    ensures violations == CycleReports(t, refs, |refs|)
  {
    violations := [];
    for i := 0 to |refs|
      invariant violations == CycleReports(t, refs, i)
    {
      var cyclic := WalksIntoCycle(t, refs[i]);
      if cyclic {
        violations := violations + [Violation(ContainmentCycle, refs[i])];
      }
    }
  }

  lemma StopsWithoutRepeat(t: Tree, n: NodeRef, walk: seq<NodeRef>)
    requires Distinct(walk)
    requires forall k :: 0 <= k < |walk| ==> t.Up(n, k) == Some(walk[k])
    requires t.Up(n, |walk|) == None
    ensures !t.WalkRepeats(n)
  {
    forall i: nat, j: nat | i < j && t.Up(n, i).Some?
      ensures t.Up(n, i) != t.Up(n, j)
    {
      if i >= |walk| {
        UpStaysNone(t, n, |walk|, i);
      } else if j >= |walk| {
        UpStaysNone(t, n, |walk|, j);
      }
    }
  }

  method CheckNodeLinks(t: Tree, n: NodeRef) returns (violations: seq<Violation>)
    requires n in t.nodes
    ensures violations == ChildrenReport(t, n) + ParentReport(t, n)
  {
    violations := [];
    var cs := t.nodes[n].children;
    for j := 0 to |cs|
      invariant violations == ChildReports(t, n, cs, j)
    {
      if cs[j] !in t.nodes {
        violations := violations + [Violation(DanglingChildRef, n)];
      } else if t.nodes[cs[j]].parent != Some(n) {
        violations := violations + [Violation(ParentChildDisagreement, cs[j])];
      }
    }
    if t.nodes[n].parent.Some? {
      var p := t.nodes[n].parent.value;
      if p !in t.nodes {
        violations := violations + [Violation(DanglingParentRef, n)];
      } else if n !in t.nodes[p].children {
        violations := violations + [Violation(MissingFromParentChildren, n)];
      }
    }
  }

  method CheckLinks(t: Tree, refs: seq<NodeRef>) returns (violations: seq<Violation>)
    requires forall i :: 0 <= i < |refs| ==> refs[i] in t.nodes
    ensures violations == LinkReports(t, refs, |refs|)
  {
    violations := [];
    for i := 0 to |refs|
      invariant violations == LinkReports(t, refs, i)
    {
      var found := CheckNodeLinks(t, refs[i]);
      violations := violations + found;
    }
  }

  method CheckRoots(t: Tree, refs: seq<NodeRef>) returns (violations: seq<Violation>)
    requires forall i :: 0 <= i < |refs| ==> refs[i] in t.nodes
    ensures violations == RootReports(t, refs, |refs|)
  {
    violations := [];
    for i := 0 to |refs|
      invariant violations == RootReports(t, refs, i)
    {
      if t.nodes[refs[i]].parent == None && refs[i] != t.root {
        violations := violations + [Violation(MultipleRoots, refs[i])];
      }
    }
  }

  /** `validate_tree_result`: link checks, root check, cycle check, in reference order. */
  method ValidateTreeResult(t: Tree) returns (valid: bool, violations: seq<Violation>)
    ensures exists refs :: Sorts(refs, t.nodes.Keys) && violations == Reports(t, refs)
    ensures valid <==> violations == []
  {
    var refs := SortRefs(t.nodes.Keys);
    assert forall i :: 0 <= i < |refs| ==> refs[i] in refs;
    var links := CheckLinks(t, refs);
    var roots := CheckRoots(t, refs);
    var cycles := DetectCycles(t, refs);
    violations := links + roots + cycles;
    valid := violations == [];
  }

  // ---------------------------------------------------------------- which violations are reported

  /** The fault that a violation is about. */
  ghost predicate Faulty(t: Tree, v: Violation)
  {
    v.node in t.nodes &&
    match v.code
    case DanglingChildRef => exists c :: c in t.nodes[v.node].children && c !in t.nodes
    case ParentChildDisagreement =>
      exists n :: n in t.nodes && v.node in t.nodes[n].children && t.nodes[v.node].parent != Some(n)
    case DanglingParentRef => t.nodes[v.node].parent.Some? && t.nodes[v.node].parent.value !in t.nodes
    case MissingFromParentChildren =>
      t.nodes[v.node].parent.Some? && t.nodes[v.node].parent.value in t.nodes &&
      v.node !in t.nodes[t.nodes[v.node].parent.value].children
    case MultipleRoots => t.nodes[v.node].parent == None && v.node != t.root
    case ContainmentCycle => t.WalkRepeats(v.node)
  }

  predicate IsLinkCode(code: Code)
  {
    code != MultipleRoots && code != ContainmentCycle
  }

  /** What a child reference of `n` is blamed for. */
  ghost predicate BlamedFor(t: Tree, n: NodeRef, c: NodeRef, v: Violation)
  {
    (v == Violation(DanglingChildRef, n) && c !in t.nodes) ||
    (v == Violation(ParentChildDisagreement, c) && c in t.nodes && t.nodes[c].parent != Some(n))
  }

  lemma {:induction false} ChildReportsAre(t: Tree, n: NodeRef, cs: seq<NodeRef>, k: nat, v: Violation)
    requires k <= |cs|
    ensures v in ChildReports(t, n, cs, k) <==> exists i :: 0 <= i < k && BlamedFor(t, n, cs[i], v)
  {
    if k > 0 { ChildReportsAre(t, n, cs, k - 1, v); }
  }

  /** What a node contributes to the link reports. */
  ghost predicate LinkFault(t: Tree, n: NodeRef, v: Violation)
    requires n in t.nodes
  {
    (exists c :: c in t.nodes[n].children && BlamedFor(t, n, c, v)) ||
    (v == Violation(DanglingParentRef, n) && Faulty(t, v)) ||
    (v == Violation(MissingFromParentChildren, n) && Faulty(t, v))
  }

  lemma NodeReportsAre(t: Tree, n: NodeRef, v: Violation)
    requires n in t.nodes
    ensures v in ChildrenReport(t, n) + ParentReport(t, n) <==> LinkFault(t, n, v)
  {
    var cs := t.nodes[n].children;
    ChildReportsAre(t, n, cs, |cs|, v);
    if c :| c in cs && BlamedFor(t, n, c, v) {
      var i :| 0 <= i < |cs| && cs[i] == c;
    }
  }

  lemma {:induction false} LinkReportsAre(t: Tree, refs: seq<NodeRef>, k: nat, v: Violation)
    requires k <= |refs| && forall i :: 0 <= i < |refs| ==> refs[i] in t.nodes
    ensures v in LinkReports(t, refs, k) <==> exists i :: 0 <= i < k && LinkFault(t, refs[i], v)
  {
    if k > 0 {
      LinkReportsAre(t, refs, k - 1, v);
      NodeReportsAre(t, refs[k - 1], v);
    }
  }

  lemma {:induction false} RootReportsAre(t: Tree, refs: seq<NodeRef>, k: nat, v: Violation)
    requires k <= |refs| && forall i :: 0 <= i < |refs| ==> refs[i] in t.nodes
    ensures v in RootReports(t, refs, k) <==> v.code == MultipleRoots && v.node in refs[..k] && Faulty(t, v)
  {
    if k > 0 {
      RootReportsAre(t, refs, k - 1, v);
      assert refs[..k] == refs[..k - 1] + [refs[k - 1]];
    }
  }

  lemma {:induction false} CycleReportsAre(t: Tree, refs: seq<NodeRef>, k: nat, v: Violation)
    requires k <= |refs| && forall i :: 0 <= i < |refs| ==> refs[i] in t.nodes
    ensures v in CycleReports(t, refs, k) <==> v.code == ContainmentCycle && v.node in refs[..k] && Faulty(t, v)
  {
    if k > 0 {
      CycleReportsAre(t, refs, k - 1, v);
      assert refs[..k] == refs[..k - 1] + [refs[k - 1]];
    }
  }

  lemma LinkFaultIffFaulty(t: Tree, refs: seq<NodeRef>, v: Violation)
    requires Sorts(refs, t.nodes.Keys)
    ensures (exists i :: 0 <= i < |refs| && LinkFault(t, refs[i], v)) <==> IsLinkCode(v.code) && Faulty(t, v)
  {
    if i :| 0 <= i < |refs| && refs[i] in t.nodes && LinkFault(t, refs[i], v) {
      assert refs[i] in refs;
    }
    if IsLinkCode(v.code) && Faulty(t, v) {
      var n := FaultAt(t, v);
      assert n in refs;
      var i :| 0 <= i < |refs| && refs[i] == n;
    }
  }

  lemma FaultAt(t: Tree, v: Violation) returns (n: NodeRef)
    requires IsLinkCode(v.code) && Faulty(t, v)
    ensures n in t.nodes && LinkFault(t, n, v)
  {
    n := v.node;
    if v.code == DanglingChildRef {
      var c :| c in t.nodes[n].children && c !in t.nodes;
      assert BlamedFor(t, n, c, v);
    }
    if v.code == ParentChildDisagreement {
      n :| n in t.nodes && v.node in t.nodes[n].children && t.nodes[v.node].parent != Some(n);
      assert BlamedFor(t, n, v.node, v);
    }
  }

  /** The validator reports exactly the faults, each with its code and its node. */
  lemma ReportedIffFaulty(t: Tree, refs: seq<NodeRef>, v: Violation)
    requires Sorts(refs, t.nodes.Keys)
    ensures v in Reports(t, refs) <==> Faulty(t, v)
  {
    assert forall i :: 0 <= i < |refs| ==> refs[i] in refs;
    assert refs[..|refs|] == refs;
    LinkReportsAre(t, refs, |refs|, v);
    RootReportsAre(t, refs, |refs|, v);
    CycleReportsAre(t, refs, |refs|, v);
    LinkFaultIffFaulty(t, refs, v);
  }

  // ---------------------------------------------------------------- acceptance is treeness

  lemma {:induction false} NoChildReports(t: Tree, n: NodeRef, cs: seq<NodeRef>, k: nat)
    requires k <= |cs|
    ensures ChildReports(t, n, cs, k) == [] <==>
      forall i :: 0 <= i < k ==> cs[i] in t.nodes && t.nodes[cs[i]].parent == Some(n)
  {
    if k > 0 { NoChildReports(t, n, cs, k - 1); }
  }

  /** Everything `LinksAt` asks of a node except that a parentless node is the root. */
  ghost predicate LinksResolve(t: Tree, n: NodeRef)
    requires n in t.nodes
  {
    t.LinksAt(n) || (t.nodes[n].parent == None &&
      forall c :: c in t.nodes[n].children ==> c in t.nodes && t.nodes[c].parent == Some(n))
  }

  lemma NoNodeReports(t: Tree, n: NodeRef)
    requires n in t.nodes
    ensures LinksResolve(t, n) <==> ChildrenReport(t, n) == [] && ParentReport(t, n) == []
  {
    var cs := t.nodes[n].children;
    NoChildReports(t, n, cs, |cs|);
    assert forall c :: c in cs <==> exists i :: 0 <= i < |cs| && cs[i] == c;
  }

  lemma {:induction false} NoLinkReports(t: Tree, refs: seq<NodeRef>, k: nat)
    requires k <= |refs| && forall i :: 0 <= i < |refs| ==> refs[i] in t.nodes
    ensures LinkReports(t, refs, k) == [] <==> AllResolve(t, refs, k)
  {
    if k > 0 {
      NoLinkReports(t, refs, k - 1);
      LinkStep(t, refs, k);
      assert AllResolve(t, refs, k) <==> AllResolve(t, refs, k - 1) && LinksResolve(t, refs[k - 1]);
    }
  }

  lemma LinkStep(t: Tree, refs: seq<NodeRef>, k: nat)
    requires 0 < k <= |refs| && forall i :: 0 <= i < |refs| ==> refs[i] in t.nodes
    ensures LinkReports(t, refs, k) == [] <==> LinkReports(t, refs, k - 1) == [] && LinksResolve(t, refs[k - 1])
  {
    NoNodeReports(t, refs[k - 1]);
    EmptyParts(LinkReports(t, refs, k - 1), ChildrenReport(t, refs[k - 1]), ParentReport(t, refs[k - 1]));
  }

  lemma EmptyParts<T>(a: seq<T>, b: seq<T>, c: seq<T>)
    ensures a + b + c == [] <==> a == [] && b == [] && c == []
  {
  }

  ghost predicate AllResolve(t: Tree, refs: seq<NodeRef>, k: nat)
    requires k <= |refs| && forall i :: 0 <= i < |refs| ==> refs[i] in t.nodes
    decreases k
  {
    k > 0 ==> AllResolve(t, refs, k - 1) && LinksResolve(t, refs[k - 1])
  }

  lemma {:induction false} AllResolveIff(t: Tree, refs: seq<NodeRef>, k: nat)
    requires k <= |refs| && forall i :: 0 <= i < |refs| ==> refs[i] in t.nodes
    ensures AllResolve(t, refs, k) <==>
      forall i {:trigger LinksResolve(t, refs[i])} :: 0 <= i < k ==> LinksResolve(t, refs[i])
    decreases k
  {
    if k > 0 { AllResolveIff(t, refs, k - 1); }
  }

  lemma {:induction false} NoRootReports(t: Tree, refs: seq<NodeRef>, k: nat)
    requires k <= |refs| && forall i :: 0 <= i < |refs| ==> refs[i] in t.nodes
    ensures RootReports(t, refs, k) == [] <==>
      forall i :: 0 <= i < k && t.nodes[refs[i]].parent == None ==> refs[i] == t.root
  {
    if k > 0 { NoRootReports(t, refs, k - 1); }
  }

  lemma {:induction false} NoCycleReports(t: Tree, refs: seq<NodeRef>, k: nat)
    requires k <= |refs|
    ensures CycleReports(t, refs, k) == [] <==> forall i :: 0 <= i < k ==> !t.WalkRepeats(refs[i])
  {
    if k > 0 { NoCycleReports(t, refs, k - 1); }
  }

  lemma LinksAgreeIff(t: Tree, refs: seq<NodeRef>)
    requires Sorts(refs, t.nodes.Keys)
    requires forall i :: 0 <= i < |refs| ==> refs[i] in t.nodes
    ensures t.LinksAgree() <==>
      AllResolve(t, refs, |refs|) &&
      (forall i :: 0 <= i < |refs| && t.nodes[refs[i]].parent == None ==> refs[i] == t.root)
  {
    AllResolveIff(t, refs, |refs|);
    forall n | n in t.nodes
      ensures exists i :: 0 <= i < |refs| && refs[i] == n
    {
      assert n in refs;
    }
    if t.LinksAgree() {
      forall i | 0 <= i < |refs|
        ensures t.LinksAt(refs[i]) && LinksResolve(t, refs[i])
      {
      }
    }
    if AllResolve(t, refs, |refs|) {
      forall i | 0 <= i < |refs|
        ensures LinksResolve(t, refs[i])
      {
      }
    }
  }

  lemma NoViolationIff(t: Tree, refs: seq<NodeRef>)
    requires Sorts(refs, t.nodes.Keys)
    ensures Reports(t, refs) == [] <==>
      t.LinksAgree() && forall n :: n in t.nodes ==> !t.WalkRepeats(n)
  {
    assert forall i :: 0 <= i < |refs| ==> refs[i] in refs;
    NoLinkReports(t, refs, |refs|);
    NoRootReports(t, refs, |refs|);
    NoCycleReports(t, refs, |refs|);
    LinksAgreeIff(t, refs);
    assert forall n :: n in t.nodes ==> n in refs;
  }

  /** Pigeonhole: a walk that stays inside the node map and never repeats must stop. */
  lemma {:induction false} WalkStops(t: Tree, n: NodeRef, walk: seq<NodeRef>) returns (k: nat)
    requires t.LinksAgree() && n in t.nodes && !t.WalkRepeats(n)
    requires Distinct(walk)
    requires forall i :: 0 <= i < |walk| ==> t.Up(n, i) == Some(walk[i]) && walk[i] in t.nodes
    ensures t.Up(n, k) == Some(t.root)
    decreases |t.nodes| - |walk|
  {
    DistinctFits(walk, t.nodes.Keys);
    if t.Up(n, |walk|) == None {
      k := |walk| - 1;
      UpSucc(t, n, k);
      assert t.LinksAt(walk[k]);
    } else {
      var next := t.Up(n, |walk|).value;
      UpInNodes(t, n, |walk|);
      assert forall i :: 0 <= i < |walk| ==> t.Up(n, i) != t.Up(n, |walk|);
      DistinctFits(walk + [next], t.nodes.Keys);
      k := WalkStops(t, n, walk + [next]);
    }
  }

  lemma AcceptedIsValid(t: Tree)
    requires t.Constructed()
    requires t.LinksAgree() && forall n :: n in t.nodes ==> !t.WalkRepeats(n)
    ensures t.Valid()
  {
    forall n | n in t.nodes
      ensures t.Anchored(n)
    {
      var k := WalkStops(t, n, []);
    }
  }

  lemma ValidIsAccepted(t: Tree)
    requires t.Valid()
    ensures forall n :: n in t.nodes ==> !t.WalkRepeats(n)
  {
    forall n, i: nat, j: nat | n in t.nodes && i < j && t.Up(n, i).Some?
      ensures t.Up(n, i) != t.Up(n, j)
    {
      LevelOfUp(t, n, i);
      if t.Up(n, j).Some? {
        LevelOfUp(t, n, j);
      }
    }
  }

  lemma {:induction false} PathToNode(t: Tree, n: NodeRef, k: nat) returns (p: seq<NodeRef>)
    requires t.Constructed() && t.LinksAgree() && n in t.nodes && t.Up(n, k) == Some(t.root)
    ensures t.ChildPathTo(p, n)
    decreases k
  {
    assert t.LinksAt(n);
    if k == 0 {
      p := [n];
    } else {
      var q := PathToNode(t, t.nodes[n].parent.value, k - 1);
      p := q + [n];
    }
  }

  lemma {:induction false} PathUnique(t: Tree, p: seq<NodeRef>, q: seq<NodeRef>, n: NodeRef)
    requires t.Constructed() && t.LinksAgree()
    requires t.ChildPathTo(p, n) && t.ChildPathTo(q, n)
    ensures p == q
    decreases |p|
  {
    LastLink(t, p);
    LastLink(t, q);
    if |p| > 1 && |q| > 1 {
      PathUnique(t, p[..|p| - 1], q[..|q| - 1], p[|p| - 2]);
      assert p == p[..|p| - 1] + [n] && q == q[..|q| - 1] + [n];
    }
  }

  lemma LastLink(t: Tree, p: seq<NodeRef>)
    requires t.Constructed() && t.LinksAgree() && t.ChildPath(p)
    ensures |p| > 1 ==> t.nodes[p[|p| - 1]].parent == Some(p[|p| - 2])
    ensures |p| > 1 ==> t.ChildPathTo(p[..|p| - 1], p[|p| - 2])
    ensures |p| == 1 <==> p[|p| - 1] == t.root
  {
    if |p| > 1 {
      assert t.LinksAt(p[|p| - 2]);
      assert p[|p| - 2 + 1] in t.nodes[p[|p| - 2]].children;
    }
  }

  lemma ValidIsRooted(t: Tree)
    requires t.Valid()
    ensures t.RootedTree()
  {
    forall n | n in t.nodes
      ensures t.LinksAt(n)
      ensures exists p :: t.ChildPathTo(p, n)
    {
      var p := PathToNode(t, n, Level(t, n));
    }
    forall n, p, q | t.ChildPathTo(p, n) && t.ChildPathTo(q, n)
      ensures p == q
    {
      PathUnique(t, p, q, n);
    }
    forall n, a | n in t.nodes
      ensures t.nodes[n].parent == Some(a) <==> a in t.nodes && n in t.nodes[a].children
    {
      assert a in t.nodes ==> t.LinksAt(a);
      assert t.LinksAt(n);
    }
  }

  /** In a rooted tree the parent walk from the end of a child path retraces it. */
  lemma {:induction false} WalkRetraces(t: Tree, p: seq<NodeRef>, k: nat)
    requires t.RootedTree() && t.ChildPath(p) && k < |p|
    ensures t.Up(p[|p| - 1], k) == Some(p[|p| - 1 - k])
    decreases k
  {
    if k > 0 {
      var q := p[..|p| - 1];
      assert p[|p| - 2 + 1] in t.nodes[p[|p| - 2]].children;
      WalkRetraces(t, q, k - 1);
    }
  }

  lemma RootedIsValid(t: Tree)
    requires t.Constructed() && t.RootedTree()
    ensures t.Valid()
  {
    forall n | n in t.nodes
      ensures t.LinksAt(n) && t.Anchored(n)
    {
      var p :| t.ChildPathTo(p, n);
      WalkRetraces(t, p, |p| - 1);
      if |p| > 1 {
        assert p[|p| - 2 + 1] in t.nodes[p[|p| - 2]].children;
      }
    }
  }

  /** The validator accepts a constructed tree exactly when it is a rooted tree. */
  lemma AcceptsExactlyRootedTrees(t: Tree, refs: seq<NodeRef>)
    requires t.Constructed() && Sorts(refs, t.nodes.Keys)
    ensures Reports(t, refs) == [] <==> t.RootedTree()
    ensures Reports(t, refs) == [] <==> t.Valid()
  {
    NoViolationIff(t, refs);
    if Reports(t, refs) == [] {
      AcceptedIsValid(t);
      ValidIsRooted(t);
    }
    if t.RootedTree() {
      RootedIsValid(t);
    }
    if t.Valid() {
      ValidIsAccepted(t);
    }
  }
}
