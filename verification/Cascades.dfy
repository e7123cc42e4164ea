/** What suppression means for a run: effects in terms of trees and matches, and no defect lost. */
module Cascades {
  import opened Options
  import opened Ordering
  import opened Trees
  import opened Profiles
  import opened Matches
  import opened Alignment
  import opened Regions
  import opened Aligner
  import opened Operations
  import opened Classification
  import opened Diagnosis
  import opened Regularity
  import opened Guarantees
  import opened Repetition
  import opened Suppression

  function Over(r: Run, rules: seq<SuppressionRule>): Suppressing
  {
    Suppressing(r.x.source, r.alignment, r.ops, rules)
  }

  // ---------------------------------------------------------------- operations by id

  lemma EmittedByKind(r: Run, op: StructuralOperation)
    requires r.Classified() && op in r.ops
    ensures ReportedByKind(r.Ctx(), r.refs, op)
  {
    assert Reports(r.Ctx(), r.refs, op);
    ReportKind(r.Ctx(), r.refs, op);
  }

  lemma MoveOp(r: Run, op: StructuralOperation)
    requires r.Sound() && op in r.ops
    ensures op.kind == Move <==> op.id.MoveId?
    ensures op.id.MoveId? ==> op.sources == [op.id.source] && op.id.source in r.x.source.nodes
    ensures op.id.MoveId? ==> op.confidence == r.x.graph.ConfirmedConfidence(op.id.source, op.id.target)
  {
    EmittedByKind(r, op);
    if op.id.MatchedId? { MatchReportedIff(r, op, op.id.source, op.id.target); }
    if op.id.UpdateId? { MatchReportedIff(r, op, op.id.source, op.id.target); }
    if op.id.DeleteId? { DeleteReportedIff(r, op, op.id.node); }
    if op.id.InsertId? { InsertReportedIff(r, op, op.id.node); }
  }

  lemma UpdateOp(r: Run, op: StructuralOperation)
    requires r.Sound() && op in r.ops
    ensures op.kind == Update <==> op.id.UpdateId?
    ensures op.id.UpdateId? ==> op.sources == [op.id.source]
  {
    EmittedByKind(r, op);
    if op.id.MatchedId? { MatchReportedIff(r, op, op.id.source, op.id.target); }
    if op.id.UpdateId? { MatchReportedIff(r, op, op.id.source, op.id.target); }
    if op.id.DeleteId? { DeleteReportedIff(r, op, op.id.node); }
    if op.id.InsertId? { InsertReportedIff(r, op, op.id.node); }
  }

  lemma RunRefers(r: Run, rules: seq<SuppressionRule>)
    requires r.Sound()
    ensures Over(r, rules).Refers()
  {
    forall op | op in r.ops && op.kind == Move
      ensures op.sources != [] && op.sources[0] in r.x.source.nodes
    {
      MoveOp(r, op);
    }
  }

  // ---------------------------------------------------------------- retained defects

  ghost predicate MovedAndFolded(r: Run, rules: seq<SuppressionRule>, s: NodeRef, t: NodeRef)
  {
    r.Emits(MoveId(s, t)) &&
    exists rule :: rule in rules && rule.rootOperation == Move && r.x.graph.ConfirmedConfidence(s, t) >= rule.threshold
  }

  lemma ContentDefectIff(r: Run, n: NodeRef)
    requires r.Sound()
    ensures ContentDefect(r.ops, n) <==> exists t :: r.Emits(UpdateId(n, t))
  {
    forall op | op in r.ops
      ensures op.kind == Update && n in op.sources <==> op.id.UpdateId? && op.id.source == n
    {
      UpdateOp(r, op);
    }
    if t :| r.Emits(UpdateId(n, t)) {
      var op: StructuralOperation :| op in r.ops && op.id == UpdateId(n, t);
    }
    if op :| op in r.ops && op.kind == Update && n in op.sources {
      assert op.id == UpdateId(n, op.id.target);
      assert r.Emits(UpdateId(n, op.id.target));
    }
  }

  lemma FoldedIsMoved(r: Run, rules: seq<SuppressionRule>, op: StructuralOperation, rule: SuppressionRule, n: NodeRef)
    requires r.Sound() && op in r.ops && rule in rules && Folds(r.x.source, r.alignment, op, rule, n)
    ensures op.id.MoveId? && MovedAndFolded(r, rules, op.id.source, op.id.target)
    ensures n in r.x.source.nodes && r.x.source.StrictlyBelow(n, op.id.source)
  {
    MoveOp(r, op);
    assert op.id == MoveId(op.id.source, op.id.target);
  }

  lemma MovedIsFolded(r: Run, rules: seq<SuppressionRule>, s: NodeRef, t: NodeRef, n: NodeRef)
    returns (op: StructuralOperation, rule: SuppressionRule)
    requires r.Sound() && MovedAndFolded(r, rules, s, t) && n in r.x.source.nodes && r.x.source.StrictlyBelow(n, s)
    ensures op in r.ops && rule in rules && Folds(r.x.source, r.alignment, op, rule, n)
  {
    op :| op in r.ops && op.id == MoveId(s, t);
    rule :| rule in rules && rule.rootOperation == Move && r.x.graph.ConfirmedConfidence(s, t) >= rule.threshold;
    MoveOp(r, op);
    assert Affects(r.x.source, r.alignment, op, n);
  }

  ghost predicate BelowFoldedMove(r: Run, rules: seq<SuppressionRule>, n: NodeRef)
  {
    n in r.x.source.nodes && exists s, t :: MovedAndFolded(r, rules, s, t) && r.x.source.StrictlyBelow(n, s)
  }

  /**
   * A node is kept visible exactly if it changed content in place below a node whose MOVE is
   * confident enough for some MOVE rule: no content defect disappears with the subtree it moved in.
   */
  lemma RetainedIff(r: Run, rules: seq<SuppressionRule>, n: NodeRef)
    requires r.Sound()
    ensures Retained(r.x.source, r.alignment, r.ops, rules, n) <==>
      BelowFoldedMove(r, rules, n) && exists t :: r.Emits(UpdateId(n, t))
  {
    ContentDefectIff(r, n);
    if op, rule :| op in r.ops && rule in rules && Folds(r.x.source, r.alignment, op, rule, n) {
      FoldedIsMoved(r, rules, op, rule, n);
    }
    if BelowFoldedMove(r, rules, n) {
      var s, t :| MovedAndFolded(r, rules, s, t) && r.x.source.StrictlyBelow(n, s);
      var op, rule := MovedIsFolded(r, rules, s, t, n);
    }
  }

  // ---------------------------------------------------------------- who is in a region

  /** A confirmed pair between the children of the two parents. */
  ghost predicate InRegion(r: Run, g: Region, m: NodeRef, n: NodeRef)
  {
    m in ChildrenOf(r.x.source, g.sourceParent) && n in ChildrenOf(r.x.target, g.targetParent) && r.x.graph.Pairs(m, n)
  }

  lemma AlignsTargetIff(r: Run, i: nat, n: NodeRef)
    requires r.Shaped() && i < |r.alignment.regions|
    ensures AlignsTarget(r.alignment.regions[i], n) <==> exists s :: InRegion(r, r.alignment.regions[i], s, n)
  {
    var g := r.alignment.regions[i];
    var scs, tcs := ChildrenOf(r.x.source, g.sourceParent), ChildrenOf(r.x.target, g.targetParent);
    forall s
      ensures AlignedPosition((s, n)) in g.pairs <==> InRegion(r, g, s, n)
    {
      PositionIn(r, i, AlignedPosition((s, n)));
      PartnerIsPair(r, s, n);
    }
    if AlignsTarget(g, n) {
      var p :| p in g.pairs && p.kind == Aligned && p.target == Some(n);
      AlignedShape(r, i, p);
      assert InRegion(r, g, p.source.value, n);
    }
    if s :| InRegion(r, g, s, n) {
      assert AlignedPosition((s, n)) in g.pairs;
    }
  }

  /** Every target child occurs in the region, and no other target. */
  lemma MentionsTarget(r: Run, i: nat, n: NodeRef)
    requires r.Shaped() && i < |r.alignment.regions|
    ensures var g := r.alignment.regions[i];
      (exists p :: p in g.pairs && p.target == Some(n)) <==> n in ChildrenOf(r.x.target, g.targetParent)
  {
    var g := r.alignment.regions[i];
    var scs, tcs := ChildrenOf(r.x.source, g.sourceParent), ChildrenOf(r.x.target, g.targetParent);
    if p :| p in g.pairs && p.target == Some(n) { PositionIn(r, i, p); }
    if n in tcs {
      if s :| s in scs && r.x.Partners()(s) == Some(n) {
        PositionIn(r, i, AlignedPosition((s, n)));
        assert AlignedHere(AlignedPosition((s, n)), scs, tcs, r.x.Partners());
      } else {
        PositionIn(r, i, TargetPosition(n, r.ambT));
        assert RightHere(TargetPosition(n, r.ambT), scs, tcs, r.x.Partners(), r.ambT);
      }
    }
  }

  /** Every source child occurs in the region, and no other source. */
  lemma MentionsSource(r: Run, i: nat, n: NodeRef)
    requires r.Shaped() && i < |r.alignment.regions|
    ensures var g := r.alignment.regions[i];
      (exists p :: p in g.pairs && p.source == Some(n)) <==> n in ChildrenOf(r.x.source, g.sourceParent)
  {
    var g := r.alignment.regions[i];
    var scs, tcs := ChildrenOf(r.x.source, g.sourceParent), ChildrenOf(r.x.target, g.targetParent);
    if p :| p in g.pairs && p.source == Some(n) { PositionIn(r, i, p); }
    if n in scs {
      if MatchedHere(r.x.Partners(), tcs, n) {
        PositionIn(r, i, AlignedPosition((n, r.x.Partners()(n).value)));
        assert AlignedHere(AlignedPosition((n, r.x.Partners()(n).value)), scs, tcs, r.x.Partners());
      } else {
        PositionIn(r, i, SourcePosition(n, r.ambS));
        assert LeftHere(SourcePosition(n, r.ambS), scs, tcs, r.x.Partners(), r.ambS);
      }
    }
  }

  /** `n` is the counterpart of a node that stayed under `sp`. */
  ghost predicate KeptUnder(r: Run, sp: NodeRef, n: NodeRef)
  {
    exists m :: r.Stays(m, n) && r.x.source.nodes[m].parent == Some(sp)
  }

  lemma RegionKeeps(r: Run, i: nat, n: NodeRef)
    requires r.Shaped() && i < |r.alignment.regions| && AlignsTarget(r.alignment.regions[i], n)
    ensures KeptUnder(r, r.alignment.regions[i].sourceParent, n)
    ensures r.x.target.nodes[n].parent == Some(r.alignment.regions[i].targetParent)
  {
    var g := r.alignment.regions[i];
    AlignsTargetIff(r, i, n);
    RegionAt(r, i);
    var s :| InRegion(r, g, s, n);
    ChildIffParent(r.x.source, s, g.sourceParent);
    ChildIffParent(r.x.target, n, g.targetParent);
    assert r.Stays(s, n);
  }

  lemma KeptHasRegion(r: Run, sp: NodeRef, n: NodeRef) returns (i: nat)
    requires r.Shaped() && KeptUnder(r, sp, n)
    ensures i < |r.alignment.regions| && r.alignment.regions[i].sourceParent == sp
    ensures Some(r.alignment.regions[i].targetParent) == r.x.target.nodes[n].parent
    ensures AlignsTarget(r.alignment.regions[i], n)
  {
    var m :| r.Stays(m, n) && r.x.source.nodes[m].parent == Some(sp);
    i := RegionUnder(r, sp, r.x.target.nodes[n].parent.value);
    RegionAt(r, i);
    ChildIffParent(r.x.source, m, sp);
    ChildIffParent(r.x.target, n, r.x.target.nodes[n].parent.value);
    assert InRegion(r, r.alignment.regions[i], m, n);
    AlignsTargetIff(r, i, n);
  }

  // ---------------------------------------------------------------- effects of INSERT and DELETE

  lemma InsertOp(r: Run, op: StructuralOperation, t: NodeRef)
    requires r.Sound() && op in r.ops && op.id == InsertId(t)
    ensures op.kind == Insert && op.targets == [t] && t in r.x.target.nodes && r.x.target.nodes[t].parent.Some?
  {
    EmittedByKind(r, op);
    InsertReportedIff(r, op, t);
  }

  lemma DeleteOp(r: Run, op: StructuralOperation, s: NodeRef)
    requires r.Sound() && op in r.ops && op.id == DeleteId(s)
    ensures op.kind == Delete && op.sources == [s] && s in r.x.source.nodes && r.x.source.nodes[s].parent.Some?
  {
    EmittedByKind(r, op);
    DeleteReportedIff(r, op, s);
  }

  ghost predicate Siblings(t: Tree, a: NodeRef, b: NodeRef)
  {
    a in t.nodes && b in t.nodes && t.nodes[a].parent.Some? && t.nodes[a].parent == t.nodes[b].parent
  }

  lemma TouchedByInsert(r: Run, op: StructuralOperation, t: NodeRef, i: nat)
    requires r.Sound() && op in r.ops && op.id == InsertId(t) && i < |r.alignment.regions|
    ensures t in r.x.target.nodes && r.x.target.nodes[t].parent.Some?
    ensures Touched(r.alignment.regions[i], op) <==>
      r.x.target.nodes[t].parent == Some(r.alignment.regions[i].targetParent)
  {
    InsertOp(r, op, t);
    MentionsTarget(r, i, t);
    RegionAt(r, i);
    ChildIffParent(r.x.target, t, r.alignment.regions[i].targetParent);
  }

  lemma TouchedByDelete(r: Run, op: StructuralOperation, s: NodeRef, i: nat)
    requires r.Sound() && op in r.ops && op.id == DeleteId(s) && i < |r.alignment.regions|
    ensures s in r.x.source.nodes && r.x.source.nodes[s].parent.Some?
    ensures Touched(r.alignment.regions[i], op) <==>
      r.x.source.nodes[s].parent == Some(r.alignment.regions[i].sourceParent)
  {
    DeleteOp(r, op, s);
    MentionsSource(r, i, s);
    RegionAt(r, i);
    ChildIffParent(r.x.source, s, r.alignment.regions[i].sourceParent);
  }

  /** An INSERT explains position changes of exactly its aligned target siblings. */
  lemma InsertAffects(r: Run, op: StructuralOperation, t: NodeRef, n: NodeRef)
    requires r.Sound() && op in r.ops && op.id == InsertId(t)
    ensures Affects(r.x.source, r.alignment, op, n) <==> Siblings(r.x.target, n, t) && exists sp :: KeptUnder(r, sp, n)
  {
    InsertOp(r, op, t);
    if Downstream(r.alignment, op, n) {
      var i: nat :| i < |r.alignment.regions| && Touched(r.alignment.regions[i], op) &&
        AlignsTarget(r.alignment.regions[i], n);
      RegionKeeps(r, i, n);
      TouchedByInsert(r, op, t, i);
    }
    if sp :| KeptUnder(r, sp, n) && Siblings(r.x.target, n, t) { SiblingOfInserted(r, op, t, n, sp); }
  }

  lemma SiblingOfInserted(r: Run, op: StructuralOperation, t: NodeRef, n: NodeRef, sp: NodeRef)
    requires r.Sound() && op in r.ops && op.id == InsertId(t) && KeptUnder(r, sp, n) && Siblings(r.x.target, n, t)
    ensures Downstream(r.alignment, op, n)
  {
    var i := KeptHasRegion(r, sp, n);
    TouchedByInsert(r, op, t, i);
  }

  /** A DELETE explains position changes of exactly the counterparts of its aligned source siblings. */
  lemma DeleteAffects(r: Run, op: StructuralOperation, s: NodeRef, n: NodeRef)
    requires r.Sound() && op in r.ops && op.id == DeleteId(s)
    ensures Affects(r.x.source, r.alignment, op, n) <==> exists m :: r.Stays(m, n) && Siblings(r.x.source, m, s)
  {
    DeleteOp(r, op, s);
    if Downstream(r.alignment, op, n) {
      var i: nat :| i < |r.alignment.regions| && Touched(r.alignment.regions[i], op) &&
        AlignsTarget(r.alignment.regions[i], n);
      RegionKeeps(r, i, n);
      TouchedByDelete(r, op, s, i);
      var m :| r.Stays(m, n) && r.x.source.nodes[m].parent == Some(r.alignment.regions[i].sourceParent);
      assert Siblings(r.x.source, m, s);
    }
    if m :| r.Stays(m, n) && Siblings(r.x.source, m, s) { SiblingOfDeleted(r, op, s, n, m); }
  }

  lemma SiblingOfDeleted(r: Run, op: StructuralOperation, s: NodeRef, n: NodeRef, m: NodeRef)
    requires r.Sound() && op in r.ops && op.id == DeleteId(s) && r.Stays(m, n) && Siblings(r.x.source, m, s)
    ensures Downstream(r.alignment, op, n)
  {
    var sp := r.x.source.nodes[s].parent.value;
    assert KeptUnder(r, sp, n);
    var i := KeptHasRegion(r, sp, n);
    TouchedByDelete(r, op, s, i);
  }

  // ---------------------------------------------------------------- effects of REORDER

  lemma AlignedSources(r: Run, i: nat, m: NodeRef)
    requires r.Shaped() && i < |r.alignment.regions|
    requires BothSides(AlignedOf(r.alignment.regions[i].pairs, |r.alignment.regions[i].pairs|))
    ensures var g := r.alignment.regions[i];
      m in SourcesIn(AlignedOf(g.pairs, |g.pairs|)) <==> exists n :: InRegion(r, g, m, n)
  {
    var g := r.alignment.regions[i];
    var scs, tcs := ChildrenOf(r.x.source, g.sourceParent), ChildrenOf(r.x.target, g.targetParent);
    RegionAt(r, i);
    assert r.x.Describes(g, r.ambS, r.ambT);
    AlignedOfRegion(scs, tcs, r.x.Partners(), r.ambS, r.ambT);
    var matched := MatchedPairs(scs, tcs, r.x.Partners(), |scs|);
    assert scs[..|scs|] == scs;
    forall n
      ensures (m, n) in matched <==> InRegion(r, g, m, n)
    {
      MatchedPairsAre(scs, tcs, r.x.Partners(), |scs|, m, n);
      PartnerIsPair(r, m, n);
    }
    SourcesOfMatched(matched, m);
    if n :| InRegion(r, g, m, n) { assert (m, n) in matched; }
    if n :| (m, n) in matched { assert InRegion(r, g, m, n); }
  }

  lemma SourcesOfMatched(matched: seq<(NodeRef, NodeRef)>, m: NodeRef)
    requires BothSides(AlignedPositions(matched))
    ensures m in SourcesIn(AlignedPositions(matched)) <==> exists n :: (m, n) in matched
  {
    if n :| (m, n) in matched {
      var k :| 0 <= k < |matched| && matched[k] == (m, n);
      assert SourcesIn(AlignedPositions(matched))[k] == m;
    }
    if m in SourcesIn(AlignedPositions(matched)) {
      var k :| 0 <= k < |matched| && SourcesIn(AlignedPositions(matched))[k] == m;
      assert (m, matched[k].1) in matched;
    }
  }

  /** `n` is the counterpart of a child of `sp` and a child of `tp`. */
  ghost predicate KeptBetween(r: Run, sp: NodeRef, tp: NodeRef, n: NodeRef)
  {
    exists m :: KeptPair(r, sp, tp, m, n)
  }

  ghost predicate KeptPair(r: Run, sp: NodeRef, tp: NodeRef, m: NodeRef, n: NodeRef)
  {
    r.x.graph.Pairs(m, n) && m in r.x.source.nodes && n in r.x.target.nodes &&
    r.x.source.nodes[m].parent == Some(sp) && r.x.target.nodes[n].parent == Some(tp)
  }

  /** The operation was reported for the children of `p` and `tp`, and lists the children of `p` kept there. */
  ghost predicate ReorderOf(r: Run, op: StructuralOperation, p: NodeRef, tp: NodeRef)
  {
    op.kind == Reorder && Shuffled(r, p, tp) && forall m :: m in op.sources <==> exists n :: KeptPair(r, p, tp, m, n)
  }

  lemma ReorderSources(r: Run, op: StructuralOperation, p: NodeRef) returns (tp: NodeRef)
    requires r.Sound() && op in r.ops && op.id == ReorderId(p)
    ensures ReorderOf(r, op, p, tp)
  {
    EmittedByKind(r, op);
    var i :| 0 <= i < |r.alignment.regions| && ReorderAt(r.Ctx(), r.alignment.regions[i]) == Some(op);
    var g := r.alignment.regions[i];
    tp := g.targetParent;
    RegionAt(r, i);
    ReorderAtIff(r, i);
    forall m
      ensures m in op.sources <==> exists n :: KeptPair(r, p, tp, m, n)
    {
      ListedIffKept(r, i, m);
    }
  }

  lemma ListedIffKept(r: Run, i: nat, m: NodeRef)
    requires r.Shaped() && i < |r.alignment.regions|
    requires BothSides(AlignedOf(r.alignment.regions[i].pairs, |r.alignment.regions[i].pairs|))
    ensures var g := r.alignment.regions[i];
      m in SourcesIn(AlignedOf(g.pairs, |g.pairs|)) <==> exists n :: KeptPair(r, g.sourceParent, g.targetParent, m, n)
  {
    var g := r.alignment.regions[i];
    AlignedSources(r, i, m);
    forall n
      ensures KeptPair(r, g.sourceParent, g.targetParent, m, n) <==> InRegion(r, g, m, n)
    {
      KeptIsInRegion(r, i, m, n);
    }
    if n :| InRegion(r, g, m, n) { assert KeptPair(r, g.sourceParent, g.targetParent, m, n); }
    if n :| KeptPair(r, g.sourceParent, g.targetParent, m, n) { assert InRegion(r, g, m, n); }
  }

  lemma KeptIsInRegion(r: Run, i: nat, m: NodeRef, n: NodeRef)
    requires r.Shaped() && i < |r.alignment.regions|
    ensures var g := r.alignment.regions[i];
      KeptPair(r, g.sourceParent, g.targetParent, m, n) <==> InRegion(r, g, m, n)
  {
    var g := r.alignment.regions[i];
    RegionAt(r, i);
    ChildIffParent(r.x.source, m, g.sourceParent);
    ChildIffParent(r.x.target, n, g.targetParent);
  }

  lemma AlignsIffKept(r: Run, i: nat, n: NodeRef)
    requires r.Shaped() && i < |r.alignment.regions|
    ensures var g := r.alignment.regions[i];
      AlignsTarget(g, n) <==> KeptBetween(r, g.sourceParent, g.targetParent, n)
  {
    var g := r.alignment.regions[i];
    AlignsTargetIff(r, i, n);
    forall m
      ensures KeptPair(r, g.sourceParent, g.targetParent, m, n) <==> InRegion(r, g, m, n)
    {
      KeptIsInRegion(r, i, m, n);
    }
    if m :| InRegion(r, g, m, n) { assert KeptPair(r, g.sourceParent, g.targetParent, m, n); }
    if m :| KeptPair(r, g.sourceParent, g.targetParent, m, n) { assert InRegion(r, g, m, n); }
  }

  /**
   * A REORDER reaches further than its siblings: it also covers the kept children of every sibling it
   * lists, because such a region has a listed node as its parent. A root confirmed to a non-root can
   * have two such operations; each is about the children of one of its two counterparts.
   */
  lemma ReorderAffects(r: Run, op: StructuralOperation, p: NodeRef) returns (tp: NodeRef)
    requires r.Sound() && op in r.ops && op.id == ReorderId(p)
    ensures ReorderOf(r, op, p, tp)
    ensures forall n :: Affects(r.x.source, r.alignment, op, n) <==> WithinReach(r, op, p, tp, n)
  {
    tp := ReorderSources(r, op, p);
    forall n
      ensures Affects(r.x.source, r.alignment, op, n) <==> WithinReach(r, op, p, tp, n)
    {
      if Downstream(r.alignment, op, n) { ReorderReaches(r, op, p, tp, n); }
      if WithinReach(r, op, p, tp, n) { ReachedByReorder(r, op, p, tp, n); }
    }
  }

  /** A kept child of the reordered parent, or a kept child of a listed one. */
  ghost predicate WithinReach(r: Run, op: StructuralOperation, p: NodeRef, tp: NodeRef, n: NodeRef)
  {
    KeptBetween(r, p, tp, n) || exists m :: m in op.sources && KeptUnder(r, m, n)
  }

  lemma ReorderReaches(r: Run, op: StructuralOperation, p: NodeRef, tp: NodeRef, n: NodeRef)
    requires r.Sound() && ReorderOf(r, op, p, tp) && Downstream(r.alignment, op, n)
    ensures WithinReach(r, op, p, tp, n)
  {
    var i: nat :| i < |r.alignment.regions| && Touched(r.alignment.regions[i], op) &&
      AlignsTarget(r.alignment.regions[i], n);
    RegionKeeps(r, i, n);
    if r.alignment.regions[i].sourceParent !in op.sources {
      TouchedBySibling(r, op, p, tp, i);
      AlignsIffKept(r, i, n);
    }
  }

  lemma TouchedBySibling(r: Run, op: StructuralOperation, p: NodeRef, tp: NodeRef, i: nat)
    requires r.Sound() && ReorderOf(r, op, p, tp)
    requires i < |r.alignment.regions| && Touched(r.alignment.regions[i], op)
    requires r.alignment.regions[i].sourceParent !in op.sources
    ensures r.alignment.regions[i].sourceParent == p && r.alignment.regions[i].targetParent == tp
  {
    var g := r.alignment.regions[i];
    var q :| q in g.pairs && q.kind == Aligned && q.source.Some? && q.source.value in op.sources;
    AlignedShape(r, i, q);
    PositionsOfRegion(r, i, q);
    AlignedIsPair(r, i, q);
    var n :| KeptPair(r, p, tp, q.source.value, n);
    OnlyPartner(r, q.source.value, n);
  }

  lemma AlignedIsPair(r: Run, i: nat, q: AlignedPair)
    requires r.Shaped() && i < |r.alignment.regions| && q in r.alignment.regions[i].pairs && q.kind == Aligned
    ensures q.source.Some? && q.target.Some? && r.x.graph.Pairs(q.source.value, q.target.value)
  {
    AlignedShape(r, i, q);
    PositionIn(r, i, q);
    PartnerIsPair(r, q.source.value, q.target.value);
  }

  lemma ReachedByReorder(r: Run, op: StructuralOperation, p: NodeRef, tp: NodeRef, n: NodeRef)
    requires r.Sound() && ReorderOf(r, op, p, tp) && WithinReach(r, op, p, tp, n)
    ensures Downstream(r.alignment, op, n)
  {
    if KeptBetween(r, p, tp, n) {
      KeptIsTouched(r, op, p, tp, n);
    } else {
      var m :| m in op.sources && KeptUnder(r, m, n);
      var i := KeptHasRegion(r, m, n);
      assert Touched(r.alignment.regions[i], op);
    }
  }

  lemma KeptIsTouched(r: Run, op: StructuralOperation, p: NodeRef, tp: NodeRef, n: NodeRef)
    requires r.Sound() && ReorderOf(r, op, p, tp) && KeptBetween(r, p, tp, n)
    ensures Downstream(r.alignment, op, n)
  {
    var m :| KeptPair(r, p, tp, m, n);
    var i := RegionUnder(r, p, tp);
    RegionAt(r, i);
    AlignsIffKept(r, i, n);
    ChildIffParent(r.x.source, m, p);
    ChildIffParent(r.x.target, n, tp);
    PartnerIsPair(r, m, n);
    PositionIn(r, i, AlignedPosition((m, n)));
    assert AlignedHere(AlignedPosition((m, n)), ChildrenOf(r.x.source, p), ChildrenOf(r.x.target, tp), r.x.Partners());
    assert Touched(r.alignment.regions[i], op);
  }

  // ---------------------------------------------------------------- the record as a whole

  /**
   * An effect hides the node its own operation is about only for an INSERT of a node that is also
   * reported in place, which takes a root confirmed to a non-root. A MOVE never hides its node.
   */
  lemma RootHiddenIff(r: Run, op: StructuralOperation)
    requires r.Sound() && op in r.ops
    ensures op.id.InsertId? ==>
      (Affects(r.x.source, r.alignment, op, op.id.node) <==> exists m :: r.Stays(m, op.id.node))
    ensures op.id.InsertId? && r.RootsSettled() ==> !Affects(r.x.source, r.alignment, op, op.id.node)
    ensures op.id.MoveId? ==> !Affects(r.x.source, r.alignment, op, op.id.source)
  {
    if op.id.InsertId? { InsertedInPlace(r, op, op.id.node); }
    if op.id.MoveId? {
      MoveOp(r, op);
      NotBelowItself(r.x.source, op.id.source);
    }
  }

  lemma InsertedInPlace(r: Run, op: StructuralOperation, t: NodeRef)
    requires r.Sound() && op in r.ops && op.id == InsertId(t)
    ensures Affects(r.x.source, r.alignment, op, t) <==> exists m :: r.Stays(m, t)
    ensures r.RootsSettled() ==> !Affects(r.x.source, r.alignment, op, t)
  {
    InsertOp(r, op, t);
    InsertAffects(r, op, t, t);
    if m :| r.Stays(m, t) {
      assert KeptUnder(r, r.x.source.nodes[m].parent.value, t);
      assert r.Emits(InsertId(t));
      PairedIsInsertedIff(r, m, t);
      NewIffSecondTail(r, m, t);
    }
  }

  /** Every effect names an emitted operation and a rule it clears; numbers run from one. */
  lemma EffectsAreGrounded(r: Run, rules: seq<SuppressionRule>, result: SuppressionResult, fired: seq<Firing>, u: nat)
    requires Over(r, rules).IsSuppression(result, fired) && u < |result.effects|
    ensures var e := result.effects[u];
      e.number == u + 1 && e.check != DefectRetained && e.affected != [] && r.Emits(e.root) &&
      exists op, rule :: op in r.ops && rule in rules && op.id == e.root && rule.ruleId == e.ruleId &&
        rule.rootOperation == op.kind && e.confidence == op.confidence >= rule.threshold
  {
    var f := fired[u];
    assert Over(r, rules).Fired()(f) && Over(r, rules).Described()(f, result.effects[u]);
    var op, rule := r.ops[f.op], rules[f.rule];
    assert op in r.ops && rule in rules;
    var n :| Affects(r.x.source, r.alignment, op, n);
    assert n in result.effects[u].affected;
  }

  /** What the effect of an operation under a rule says: a MOVE was checked for defects, the others were not. */
  ghost predicate IsEffectOf(r: Run, op: StructuralOperation, rule: SuppressionRule, e: SuppressedEffect)
  {
    e.root == op.id && e.ruleId == rule.ruleId && e.category == rule.effectCategory && e.confidence == op.confidence &&
    (forall n :: n in e.affected <==> Affects(r.x.source, r.alignment, op, n)) &&
    (forall i, j :: 0 <= i < j < |e.affected| ==> Below(e.affected[i], e.affected[j])) &&
    (e.check == Passed <==> op.id.MoveId?) && (e.check == NotApplicable <==> !op.id.MoveId?)
  }

  /** The rule reacts to the type of the operation, its threshold is reached, and something is affected. */
  ghost predicate Clears(r: Run, op: StructuralOperation, rule: SuppressionRule)
  {
    rule.rootOperation == op.kind && op.confidence >= rule.threshold &&
    exists n :: Affects(r.x.source, r.alignment, op, n)
  }

  lemma EffectRecord(r: Run, op: StructuralOperation, rule: SuppressionRule, e: SuppressedEffect)
    requires r.Sound() && op in r.ops && IsEffect(r.x.source, r.alignment, op, rule, e)
    ensures IsEffectOf(r, op, rule, e)
  {
    MoveOp(r, op);
  }

  /** Every effect is the record of an operation of the output under a rule that it clears. */
  lemma EffectHolds(r: Run, rules: seq<SuppressionRule>, result: SuppressionResult, fired: seq<Firing>, u: nat)
    returns (op: StructuralOperation, rule: SuppressionRule)
    requires r.Sound() && Over(r, rules).IsSuppression(result, fired) && u < |result.effects|
    ensures op in r.ops && rule in rules && Clears(r, op, rule) && IsEffectOf(r, op, rule, result.effects[u])
  {
    assert Over(r, rules).Fired()(fired[u]) && Over(r, rules).Described()(fired[u], result.effects[u]);
    op, rule := r.ops[fired[u].op], rules[fired[u].rule];
    EffectRecord(r, op, rule, result.effects[u]);
  }

  /** Every operation has its effect under every rule that it clears. */
  lemma EffectExists(r: Run, rules: seq<SuppressionRule>, result: SuppressionResult, fired: seq<Firing>,
                     op: StructuralOperation, rule: SuppressionRule)
    returns (u: nat)
    requires r.Sound() && Over(r, rules).IsSuppression(result, fired)
    requires op in r.ops && rule in rules && Clears(r, op, rule)
    ensures u < |result.effects| && IsEffectOf(r, op, rule, result.effects[u])
  {
    var i :| 0 <= i < |r.ops| && r.ops[i] == op;
    var k :| 0 <= k < |rules| && rules[k] == rule;
    u := EffectOfFiring(r, rules, result, fired, i, k);
    EffectRecord(r, op, rule, result.effects[u]);
  }

  /** Two effects of one operation id under one rule. */
  ghost predicate EffectTwice(effects: seq<SuppressedEffect>, id: OperationId, ruleId: string)
  {
    exists u, v :: 0 <= u < v < |effects| && IsAbout(effects[u], id, ruleId) && IsAbout(effects[v], id, ruleId)
  }

  predicate IsAbout(e: SuppressedEffect, id: OperationId, ruleId: string)
  {
    e.root == id && e.ruleId == ruleId
  }

  ghost predicate FiringFor(r: Run, rules: seq<SuppressionRule>, id: OperationId, i: nat, k: nat)
  {
    i < |r.ops| && k < |rules| && r.ops[i].id == id && Fires(r.x.source, r.alignment, r.ops[i], rules[k])
  }

  lemma EffectOfFiring(r: Run, rules: seq<SuppressionRule>, result: SuppressionResult, fired: seq<Firing>, i: nat,
                       k: nat)
    returns (u: nat)
    requires Over(r, rules).IsSuppression(result, fired) && i < |r.ops| && k < |rules|
    requires Fires(r.x.source, r.alignment, r.ops[i], rules[k])
    ensures u < |result.effects| && fired[u] == Firing(i, k)
    ensures IsEffect(r.x.source, r.alignment, r.ops[i], rules[k], result.effects[u])
  {
    assert Over(r, rules).Fired()(Firing(i, k)) && Earlier(Firing(i, k), |r.ops|, 0);
    u :| 0 <= u < |fired| && fired[u] == Firing(i, k);
    assert Over(r, rules).Described()(fired[u], result.effects[u]);
  }

  lemma FiringOfEffect(r: Run, rules: seq<SuppressionRule>, result: SuppressionResult, fired: seq<Firing>, u: nat,
                       k: nat)
    requires Over(r, rules).IsSuppression(result, fired) && u < |result.effects| && k < |rules|
    requires result.effects[u].ruleId == rules[k].ruleId
    requires Unrepeated(rules)
    ensures fired[u].rule == k && FiringFor(r, rules, result.effects[u].root, fired[u].op, k)
  {
    assert Over(r, rules).Fired()(fired[u]) && Over(r, rules).Described()(fired[u], result.effects[u]);
  }

  ghost predicate FiresTwice(r: Run, rules: seq<SuppressionRule>, id: OperationId, k: nat)
  {
    exists i: nat, j: nat :: i < j && FiringFor(r, rules, id, i, k) && FiringFor(r, rules, id, j, k)
  }

  ghost predicate Unrepeated(rules: seq<SuppressionRule>)
  {
    forall a, b :: 0 <= a < b < |rules| ==> rules[a].ruleId != rules[b].ruleId
  }

  lemma TwoEffects(r: Run, rules: seq<SuppressionRule>, result: SuppressionResult, fired: seq<Firing>, id: OperationId,
                   k: nat)
    requires Over(r, rules).IsSuppression(result, fired) && k < |rules| && FiresTwice(r, rules, id, k)
    ensures EffectTwice(result.effects, id, rules[k].ruleId)
  {
    var i: nat, j: nat :| i < j && FiringFor(r, rules, id, i, k) && FiringFor(r, rules, id, j, k);
    var u := AboutFiring(r, rules, result, fired, id, i, k);
    var v := AboutFiring(r, rules, result, fired, id, j, k);
    assert u < v || v < u;
  }

  lemma AboutFiring(r: Run, rules: seq<SuppressionRule>, result: SuppressionResult, fired: seq<Firing>, id: OperationId,
                    i: nat, k: nat)
    returns (u: nat)
    requires Over(r, rules).IsSuppression(result, fired) && k < |rules| && FiringFor(r, rules, id, i, k)
    ensures u < |result.effects| == |fired| && fired[u] == Firing(i, k)
    ensures IsAbout(result.effects[u], id, rules[k].ruleId)
  {
    u := EffectOfFiring(r, rules, result, fired, i, k);
  }

  lemma TwoFirings(r: Run, rules: seq<SuppressionRule>, result: SuppressionResult, fired: seq<Firing>, id: OperationId,
                   k: nat)
    requires Over(r, rules).IsSuppression(result, fired) && k < |rules| && Unrepeated(rules)
    requires EffectTwice(result.effects, id, rules[k].ruleId)
    ensures FiresTwice(r, rules, id, k)
  {
    var es, name := result.effects, rules[k].ruleId;
    var u, v :| 0 <= u < v < |es| && IsAbout(es[u], id, name) && IsAbout(es[v], id, name);
    FiringOfEffect(r, rules, result, fired, u, k);
    FiringOfEffect(r, rules, result, fired, v, k);
    assert Earlier(fired[u], fired[v].op, fired[v].rule);
    assert fired[u].op < fired[v].op;
  }

  /**
   * An operation id and a rule share more than one effect exactly when two operations of the output
   * carry the id and the rule fires for both; by `IdRepeatsIff` never with settled roots.
   */
  lemma EffectsRepeatIff(r: Run, rules: seq<SuppressionRule>, result: SuppressionResult, fired: seq<Firing>,
                         id: OperationId, k: nat)
    requires Over(r, rules).IsSuppression(result, fired) && k < |rules| && Unrepeated(rules)
    ensures EffectTwice(result.effects, id, rules[k].ruleId) <==> FiresTwice(r, rules, id, k)
    ensures FiresTwice(r, rules, id, k) ==> NamedTwice(r.ops, id)
  {
    if EffectTwice(result.effects, id, rules[k].ruleId) { TwoFirings(r, rules, result, fired, id, k); }
    if FiresTwice(r, rules, id, k) { TwoEffects(r, rules, result, fired, id, k); }
  }
}
