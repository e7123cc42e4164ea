/** Cascade suppression: which derived differences are folded into their root operation. */
module Suppression {
  import opened Options
  import opened Ordering
  import opened Trees
  import opened Profiles
  import opened Alignment
  import opened Operations
  import opened Walks

  datatype DefectCheck = Passed | DefectRetained | NotApplicable

  datatype SuppressedEffect = SuppressedEffect(
    number: nat,
    root: OperationId,
    ruleId: string,
    category: string,
    affected: seq<NodeRef>,
    confidence: real,
    check: DefectCheck)

  datatype SuppressionResult = SuppressionResult(effects: seq<SuppressedEffect>, retained: seq<NodeRef>)

  // ---------------------------------------------------------------- what an operation affects

  predicate AlignsTarget(g: Region, n: NodeRef)
  {
    exists p :: p in g.pairs && p.kind == Aligned && p.target == Some(n)
  }

  /** The region holds the inserted or deleted node, or belongs to the reordered parent. */
  predicate Touched(g: Region, op: StructuralOperation)
  {
    match op.kind
    case Insert => op.targets != [] && exists p :: p in g.pairs && p.target == Some(op.targets[0])
    case Delete => op.sources != [] && exists p :: p in g.pairs && p.source == Some(op.sources[0])
    case Reorder =>
      g.sourceParent in op.sources ||
      exists p :: p in g.pairs && p.kind == Aligned && p.source.Some? && p.source.value in op.sources
    case _ => false
  }

  ghost predicate Downstream(a: AlignmentResult, op: StructuralOperation, n: NodeRef)
  {
    exists i: nat :: i < |a.regions| && Touched(a.regions[i], op) && AlignsTarget(a.regions[i], n)
  }

  /** A MOVE affects everything below the moved node, the others the aligned siblings. */
  ghost predicate Affects(source: Tree, a: AlignmentResult, op: StructuralOperation, n: NodeRef)
  {
    if op.kind == Move then op.sources != [] && n in source.nodes && source.StrictlyBelow(n, op.sources[0])
    else Downstream(a, op, n)
  }

  ghost predicate Fires(source: Tree, a: AlignmentResult, op: StructuralOperation, rule: SuppressionRule)
  {
    rule.rootOperation == op.kind && op.confidence >= rule.threshold && exists n :: Affects(source, a, op, n)
  }

  ghost predicate IsEffect(source: Tree, a: AlignmentResult, op: StructuralOperation, rule: SuppressionRule,
                           e: SuppressedEffect)
  {
    e.root == op.id && e.ruleId == rule.ruleId && e.category == rule.effectCategory && e.confidence == op.confidence &&
    Increasing(e.affected) && (forall n :: n in e.affected <==> Affects(source, a, op, n)) &&
    e.check == if op.kind == Move then Passed else NotApplicable
  }

  /** A content change below a moved node that some rule folds away. */
  ghost predicate Retained(source: Tree, a: AlignmentResult, ops: seq<StructuralOperation>, rules: seq<SuppressionRule>,
                           n: NodeRef)
  {
    (exists op, rule :: op in ops && rule in rules && Folds(source, a, op, rule, n)) && ContentDefect(ops, n)
  }

  ghost predicate Folds(source: Tree, a: AlignmentResult, op: StructuralOperation, rule: SuppressionRule, n: NodeRef)
  {
    op.kind == Move && Fires(source, a, op, rule) && Affects(source, a, op, n)
  }

  ghost predicate ContentDefect(ops: seq<StructuralOperation>, n: NodeRef)
  {
    exists op :: op in ops && op.kind == Update && n in op.sources
  }

  // ---------------------------------------------------------------- the helpers

  method DownstreamSiblings(op: StructuralOperation, a: AlignmentResult) returns (affected: set<NodeRef>)
    ensures forall n :: n in affected <==> Downstream(a, op, n)
  {
    affected := {};
    for i := 0 to |a.regions|
      invariant forall n :: n in affected <==>
        exists k: nat :: k < i && Touched(a.regions[k], op) && AlignsTarget(a.regions[k], n)
    {
      var g := a.regions[i];
      var siblings := set p | p in g.pairs && p.kind == Aligned && p.target.Some? :: p.target.value;
      assert forall n :: n in siblings <==> AlignsTarget(g, n);
      if siblings == {} {
        continue;
      }
      if op.kind == Insert {
        if op.targets != [] && exists p :: p in g.pairs && p.target == Some(op.targets[0]) {
          affected := affected + siblings;
        }
      } else if op.kind == Delete {
        if op.sources != [] && exists p :: p in g.pairs && p.source == Some(op.sources[0]) {
          affected := affected + siblings;
        }
      } else if op.kind == Reorder {
        if g.sourceParent in op.sources ||
           exists p :: p in g.pairs && p.kind == Aligned && p.source.Some? && p.source.value in op.sources {
          affected := affected + siblings;
        }
      }
    }
  }

  method FindIndependentDefects(affected: set<NodeRef>, ops: seq<StructuralOperation>) returns (defects: set<NodeRef>)
    ensures forall n :: n in defects <==> n in affected && ContentDefect(ops, n)
  {
    defects := {};
    for i := 0 to |ops|
      invariant forall n :: n in defects <==> n in affected && ContentDefect(ops[..i], n)
    {
      assert ops[..i + 1] == ops[..i] + [ops[i]];
      if ops[i].kind == Update {
        var refs := ops[i].sources;
        for j := 0 to |refs|
          invariant forall n :: n in defects <==> n in affected && (ContentDefect(ops[..i], n) || n in refs[..j])
        {
          assert refs[..j + 1] == refs[..j] + [refs[j]];
          if refs[j] in affected {
            defects := defects + {refs[j]};
          }
        }
        assert refs[..|refs|] == refs;
      }
      forall n
        ensures ContentDefect(ops[..i + 1], n) <==>
          ContentDefect(ops[..i], n) || (ops[i].kind == Update && n in ops[i].sources)
      {
        assert ops[i] in ops[..i + 1];
      }
    }
    assert ops[..|ops|] == ops;
  }

  // ---------------------------------------------------------------- the record of firings

  datatype Firing = Firing(op: nat, rule: nat)

  predicate Earlier(f: Firing, i: nat, j: nat)
  {
    f.op < i || (f.op == i && f.rule < j)
  }

  lemma EarlierStep(f: Firing, i: nat, j: nat)
    ensures Earlier(f, i, j + 1) <==> Earlier(f, i, j) || f == Firing(i, j)
  {
    if f.op == i && f.rule == j { assert f == Firing(i, j); }
  }

  type Condition = Firing -> bool

  type Shape = (Firing, SuppressedEffect) -> bool

  /** The effects are those of the firings before (i, j), in order and numbered from one. */
  ghost predicate Recorded(fires: Condition, fits: Shape, i: nat, j: nat, effects: seq<SuppressedEffect>,
                           fired: seq<Firing>)
  {
    |fired| == |effects| &&
    (forall u :: 0 <= u < |fired| ==> Earlier(fired[u], i, j) && fires(fired[u])) &&
    (forall u :: 0 <= u < |fired| ==> fits(fired[u], effects[u]) && effects[u].number == u + 1) &&
    (forall u, v :: 0 <= u < v < |fired| ==> Earlier(fired[u], fired[v].op, fired[v].rule)) &&
    forall f :: Earlier(f, i, j) && fires(f) ==> f in fired
  }

  lemma RecordStep(fires: Condition, fits: Shape, i: nat, j: nat, effects: seq<SuppressedEffect>, fired: seq<Firing>,
                   e: SuppressedEffect)
    requires Recorded(fires, fits, i, j, effects, fired)
    ensures !fires(Firing(i, j)) ==> Recorded(fires, fits, i, j + 1, effects, fired)
    ensures fires(Firing(i, j)) && fits(Firing(i, j), e) && e.number == |effects| + 1 ==>
      Recorded(fires, fits, i, j + 1, effects + [e], fired + [Firing(i, j)])
  {
    forall f: Firing
      ensures Earlier(f, i, j + 1) <==> Earlier(f, i, j) || f == Firing(i, j)
    {
      EarlierStep(f, i, j);
    }
  }

  lemma RecordNext(fires: Condition, fits: Shape, i: nat, width: nat, effects: seq<SuppressedEffect>,
                   fired: seq<Firing>)
    requires Recorded(fires, fits, i, width, effects, fired)
    requires forall f :: fires(f) ==> f.rule < width
    ensures Recorded(fires, fits, i + 1, 0, effects, fired)
  {
    forall f | Earlier(f, i + 1, 0) && fires(f)
      ensures f in fired
    {
      assert Earlier(f, i, width);
    }
  }

  datatype Suppressing = Suppressing(source: Tree, alignment: AlignmentResult, ops: seq<StructuralOperation>,
                                     rules: seq<SuppressionRule>)
  {
    /** Each MOVE names a node of the source tree. */
    ghost predicate Refers()
    {
      source.Valid() && forall op :: op in ops && op.kind == Move ==> op.sources != [] && op.sources[0] in source.nodes
    }

    ghost function Fired(): Condition
    {
      (f: Firing) => f.op < |ops| && f.rule < |rules| && Fires(source, alignment, ops[f.op], rules[f.rule])
    }

    ghost function Described(): Shape
    {
      (f: Firing, e: SuppressedEffect) => f.op < |ops| && f.rule < |rules| &&
        IsEffect(source, alignment, ops[f.op], rules[f.rule], e)
    }

    ghost predicate RetainedBy(i: nat, j: nat, n: NodeRef)
    {
      ContentDefect(ops, n) &&
      exists f: Firing ::
        Earlier(f, i, j) && Fired()(f) && ops[f.op].kind == Move && Affects(source, alignment, ops[f.op], n)
    }

    /** The contract of `suppress`. */
    ghost predicate IsSuppression(r: SuppressionResult, fired: seq<Firing>)
    {
      Recorded(Fired(), Described(), |ops|, 0, r.effects, fired) &&
      Increasing(r.retained) && forall n :: n in r.retained <==> Retained(source, alignment, ops, rules, n)
    }
  }

  lemma RetainStep(x: Suppressing, i: nat, j: nat, n: NodeRef)
    requires i < |x.ops| && j < |x.rules|
    ensures x.RetainedBy(i, j + 1, n) <==>
      x.RetainedBy(i, j, n) ||
      (ContentDefect(x.ops, n) && x.Fired()(Firing(i, j)) && x.ops[i].kind == Move &&
        Affects(x.source, x.alignment, x.ops[i], n))
  {
    forall f: Firing
      ensures Earlier(f, i, j + 1) <==> Earlier(f, i, j) || f == Firing(i, j)
    {
      EarlierStep(f, i, j);
    }
  }

  lemma RetainNext(x: Suppressing, i: nat, n: NodeRef)
    ensures x.RetainedBy(i, |x.rules|, n) <==> x.RetainedBy(i + 1, 0, n)
  {
    assert forall f :: Earlier(f, i, |x.rules|) ==> Earlier(f, i + 1, 0);
    assert forall f :: Earlier(f, i + 1, 0) && x.Fired()(f) ==> Earlier(f, i, |x.rules|);
  }

  lemma RetainAll(x: Suppressing, n: NodeRef)
    ensures x.RetainedBy(|x.ops|, 0, n) <==> Retained(x.source, x.alignment, x.ops, x.rules, n)
  {
    if Retained(x.source, x.alignment, x.ops, x.rules, n) {
      var op, rule :| op in x.ops && rule in x.rules && Folds(x.source, x.alignment, op, rule, n);
      var i :| 0 <= i < |x.ops| && x.ops[i] == op;
      var j :| 0 <= j < |x.rules| && x.rules[j] == rule;
      assert Earlier(Firing(i, j), |x.ops|, 0) && x.Fired()(Firing(i, j));
    }
    if x.RetainedBy(|x.ops|, 0, n) {
      var f: Firing :| Earlier(f, |x.ops|, 0) && x.Fired()(f) && x.ops[f.op].kind == Move &&
        Affects(x.source, x.alignment, x.ops[f.op], n);
      assert x.ops[f.op] in x.ops && x.rules[f.rule] in x.rules;
      assert Folds(x.source, x.alignment, x.ops[f.op], x.rules[f.rule], n);
    }
  }

  // ---------------------------------------------------------------- the service

  /** The nodes one operation affects. */
  method AffectedBy(x: Suppressing, i: nat) returns (affected: set<NodeRef>)
    requires x.Refers() && i < |x.ops|
    ensures forall n :: n in affected <==> Affects(x.source, x.alignment, x.ops[i], n)
  {
    if x.ops[i].kind == Move {
      assert x.ops[i] in x.ops;
      affected := Descendants(x.source, x.ops[i].sources[0]);
    } else {
      affected := DownstreamSiblings(x.ops[i], x.alignment);
    }
  }

  /** `suppress`: every operation against every rule of its type. */
  method Suppress(x: Suppressing) returns (r: SuppressionResult, ghost fired: seq<Firing>)
    requires x.Refers()
    ensures x.IsSuppression(r, fired)
  {
    var effects: seq<SuppressedEffect> := [];
    var retained: set<NodeRef> := {};
    fired := [];
    for i := 0 to |x.ops|
      invariant Recorded(x.Fired(), x.Described(), i, 0, effects, fired)
      invariant forall n :: n in retained <==> x.RetainedBy(i, 0, n)
    {
      for j := 0 to |x.rules|
        invariant Recorded(x.Fired(), x.Described(), i, j, effects, fired)
        invariant forall n :: n in retained <==> x.RetainedBy(i, j, n)
      {
        effects, retained, fired := ApplyRule(x, i, j, effects, retained, fired);
      }
      RecordNext(x.Fired(), x.Described(), i, |x.rules|, effects, fired);
      forall n
        ensures x.RetainedBy(i, |x.rules|, n) <==> x.RetainedBy(i + 1, 0, n)
      {
        RetainNext(x, i, n);
      }
    }
    forall n
      ensures x.RetainedBy(|x.ops|, 0, n) <==> Retained(x.source, x.alignment, x.ops, x.rules, n)
    {
      RetainAll(x, n);
    }
    var kept := SortRefs(retained);
    r := SuppressionResult(effects, kept);
  }

  /** One rule against one operation. */
  method ApplyRule(x: Suppressing, i: nat, j: nat, effects: seq<SuppressedEffect>, retained: set<NodeRef>,
                   ghost fired: seq<Firing>)
    returns (effects': seq<SuppressedEffect>, retained': set<NodeRef>, ghost fired': seq<Firing>)
    requires x.Refers() && i < |x.ops| && j < |x.rules|
    requires Recorded(x.Fired(), x.Described(), i, j, effects, fired)
    requires forall n :: n in retained <==> x.RetainedBy(i, j, n)
    ensures Recorded(x.Fired(), x.Described(), i, j + 1, effects', fired')
    ensures forall n :: n in retained' <==> x.RetainedBy(i, j + 1, n)
  {
    effects', retained', fired' := effects, retained, fired;
    var op, rule := x.ops[i], x.rules[j];
    forall n
      ensures x.RetainedBy(i, j + 1, n) <==>
        x.RetainedBy(i, j, n) ||
        (ContentDefect(x.ops, n) && x.Fired()(Firing(i, j)) && op.kind == Move && Affects(x.source, x.alignment, op, n))
    {
      RetainStep(x, i, j, n);
    }
    if rule.rootOperation != op.kind || op.confidence < rule.threshold {
      RecordStep(x.Fired(), x.Described(), i, j, effects, fired,
                 SuppressedEffect(0, op.id, rule.ruleId, rule.effectCategory, [], op.confidence, NotApplicable));
      return;
    }
    var affected := AffectedBy(x, i);
    var refs := SortRefs(affected);
    var e := SuppressedEffect(|effects| + 1, op.id, rule.ruleId, rule.effectCategory, refs, op.confidence,
                              if op.kind == Move then Passed else NotApplicable);
    RecordStep(x.Fired(), x.Described(), i, j, effects, fired, e);
    if affected == {} {
      assert forall n :: !Affects(x.source, x.alignment, op, n);
      return;
    }
    var some :| some in affected;
    assert Affects(x.source, x.alignment, op, some);
    if op.kind == Move {
      var defects := FindIndependentDefects(affected, x.ops);
      retained' := retained + defects;
    }
    effects' := effects + [e];
    fired' := fired + [Firing(i, j)];
  }
}
