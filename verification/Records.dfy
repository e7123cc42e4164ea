/** What the records hold: regions, positions and operations, each said over the trees and the match graph. */
module Records {
  import opened Options
  import opened Ordering
  import opened Trees
  import opened Profiles
  import opened Matches
  import opened Alignment
  import opened Regions
  import opened Aligner
  import opened Operations
  import opened Classification
  import opened Diagnosis
  import opened Regularity
  import Matcher

  // ---------------------------------------------------------------- uncertain nodes

  ghost predicate HeldSource(g: MatchGraph, s: NodeRef)
  {
    (exists t :: g.AmbiguousEdge(s, t)) && forall t :: !g.Pairs(s, t)
  }

  ghost predicate HeldTarget(g: MatchGraph, t: NodeRef)
  {
    (exists s :: g.AmbiguousEdge(s, t)) && forall s :: !g.Pairs(s, t)
  }

  lemma UncertainIsHeld(r: Run, n: NodeRef)
    ensures r.UncertainSource(n) <==> HeldSource(r.x.graph, n)
    ensures r.UncertainTarget(n) <==> HeldTarget(r.x.graph, n)
  {
    var g := r.x.graph;
    if r.UncertainSource(n) {
      var c :| c in g.candidates && c.state == Ambiguous && c.source == n;
      assert g.AmbiguousEdge(n, c.target);
    }
    if r.UncertainTarget(n) {
      var c :| c in g.candidates && c.state == Ambiguous && c.target == n;
      assert g.AmbiguousEdge(c.source, n);
    }
    if c :| c in g.candidates && c.state == Confirmed && c.source == n { assert g.Pairs(n, c.target); }
    if c :| c in g.candidates && c.state == Confirmed && c.target == n { assert g.Pairs(c.source, n); }
  }

  // ---------------------------------------------------------------- order semantics

  /** The profile's entry for a node type, or its default if there is none. */
  ghost predicate OrderMatters(p: AlignmentProfile, nodeType: string)
  {
    (nodeType in p.orderedByType && p.orderedByType[nodeType]) || (nodeType !in p.orderedByType && p.defaultOrdered)
  }

  /** A region is ordered as the entry for the type of its source parent says, else as the default says. */
  lemma RegionOrderedIff(x: AlignInput, a: AlignmentResult, ambS: AmbiguousIndex, ambT: AmbiguousIndex, i: nat)
    requires x.Refers() && x.IsAlignment(a, ambS, ambT) && i < |a.regions|
    ensures a.regions[i].sourceParent in x.source.nodes
    ensures var nodeType := x.source.nodes[a.regions[i].sourceParent].nodeType;
      (nodeType in x.profile.orderedByType ==> (a.regions[i].ordered <==> x.profile.orderedByType[nodeType])) &&
      (nodeType !in x.profile.orderedByType ==> (a.regions[i].ordered <==> x.profile.defaultOrdered))
  {
    assert x.Describes(a.regions[i], ambS, ambT);
  }

  /** Two children of `sp` and their partners under `tp` stand in opposite orders. */
  ghost predicate Exchanged(r: Run, sp: NodeRef, tp: NodeRef)
  {
    sp in r.x.source.nodes && tp in r.x.target.nodes &&
    exists i, j, p, q :: 0 <= i < j < |r.x.source.nodes[sp].children| && 0 <= p < q < |r.x.target.nodes[tp].children| &&
      r.x.graph.Pairs(r.x.source.nodes[sp].children[i], r.x.target.nodes[tp].children[q]) &&
      r.x.graph.Pairs(r.x.source.nodes[sp].children[j], r.x.target.nodes[tp].children[p])
  }

  lemma InvertedIffExchanged(r: Run, sp: NodeRef, tp: NodeRef)
    requires r.Shaped() && r.x.Heads(sp, tp)
    ensures Inverted(ChildrenOf(r.x.source, sp), ChildrenOf(r.x.target, tp), r.x.Partners()) <==> Exchanged(r, sp, tp)
  {
    forall s, t
      ensures r.x.Partners()(s) == Some(t) <==> r.x.graph.Pairs(s, t)
    {
      PartnerIsPair(r, s, t);
    }
  }

  /** REORDER by the profile's two cases: the entry for the parent's type, and the default where there is none. */
  lemma ReorderByType(r: Run, sp: NodeRef)
    requires r.Sound() && sp in r.x.source.nodes
    ensures var nodeType := r.x.source.nodes[sp].nodeType;
      (nodeType in r.x.profile.orderedByType ==>
        (r.Emits(ReorderId(sp)) <==>
          Reorder in r.profile.enabled && r.x.profile.orderedByType[nodeType] &&
          exists tp :: r.x.Heads(sp, tp) && Exchanged(r, sp, tp))) &&
      (nodeType !in r.x.profile.orderedByType ==>
        (r.Emits(ReorderId(sp)) <==>
          Reorder in r.profile.enabled && r.x.profile.defaultOrdered &&
          exists tp :: r.x.Heads(sp, tp) && Exchanged(r, sp, tp)))
  {
    ReorderIff(r, sp);
    forall tp
      ensures Shuffled(r, sp, tp) <==>
        r.x.Heads(sp, tp) && Exchanged(r, sp, tp) && OrderMatters(r.x.profile, r.x.source.nodes[sp].nodeType)
    {
      if r.x.Heads(sp, tp) { InvertedIffExchanged(r, sp, tp); }
    }
  }

  // ---------------------------------------------------------------- positions

  /** The ids of all ambiguous candidates at a node, and of nothing else. */
  ghost predicate ListsEdges(g: MatchGraph, ids: seq<MatchId>, onSource: bool, n: NodeRef)
  {
    forall id :: id in ids <==> g.AmbiguousEdge(id.source, id.target) && n == if onSource then id.source else id.target
  }

  /** What a position of the region of `sp` and `tp` may be. */
  ghost predicate IsPosition(r: Run, sp: NodeRef, tp: NodeRef, p: AlignedPair)
    requires sp in r.x.source.nodes && tp in r.x.target.nodes
  {
    var g, scs, tcs := r.x.graph, r.x.source.nodes[sp].children, r.x.target.nodes[tp].children;
    match p.kind
    case Aligned =>
      p.source.Some? && p.target.Some? && p.source.value in scs && p.target.value in tcs &&
      g.Pairs(p.source.value, p.target.value) &&
      p.matchId == Some(MatchId(p.source.value, p.target.value)) && p.ambiguousIds == []
    case SourceOnly =>
      p.source.Some? && p.source.value in scs && p.target == None && p.matchId == None && p.ambiguousIds == [] &&
      !HeldSource(g, p.source.value) && forall t :: t in tcs ==> !g.Pairs(p.source.value, t)
    case UnresolvedSource =>
      p.source.Some? && p.source.value in scs && p.target == None && p.matchId == None &&
      HeldSource(g, p.source.value) && ListsEdges(g, p.ambiguousIds, true, p.source.value)
    case TargetOnly =>
      p.target.Some? && p.target.value in tcs && p.source == None && p.matchId == None && p.ambiguousIds == [] &&
      !HeldTarget(g, p.target.value) && forall s :: s in scs ==> !g.Pairs(s, p.target.value)
    case UnresolvedTarget =>
      p.target.Some? && p.target.value in tcs && p.source == None && p.matchId == None &&
      HeldTarget(g, p.target.value) && ListsEdges(g, p.ambiguousIds, false, p.target.value)
  }

  lemma IndexListsEdges(r: Run, n: NodeRef)
    requires r.Shaped()
    ensures n in r.ambS ==> ListsEdges(r.x.graph, r.ambS[n], true, n)
    ensures n in r.ambT ==> ListsEdges(r.x.graph, r.ambT[n], false, n)
  {
    var cs := WithState(r.x.graph.candidates, Ambiguous);
    forall id
      ensures Touches(cs, true, n, id) <==> r.x.graph.AmbiguousEdge(id.source, id.target) && id.source == n
      ensures Touches(cs, false, n, id) <==> r.x.graph.AmbiguousEdge(id.source, id.target) && id.target == n
    {
      TouchesIffEdge(r.x.graph, n, id);
    }
  }

  lemma TouchesIffEdge(g: MatchGraph, n: NodeRef, id: MatchId)
    ensures Touches(WithState(g.candidates, Ambiguous), true, n, id) <==>
      g.AmbiguousEdge(id.source, id.target) && id.source == n
    ensures Touches(WithState(g.candidates, Ambiguous), false, n, id) <==>
      g.AmbiguousEdge(id.source, id.target) && id.target == n
  {
    if g.AmbiguousEdge(id.source, id.target) {
      var c :| c in g.candidates && c.state == Ambiguous && c.source == id.source && c.target == id.target;
      assert c in WithState(g.candidates, Ambiguous) && c.Id() == id;
    }
  }

  /** Every position of every region is one of the five, with the ids it should carry. */
  lemma PositionsHold(r: Run, i: nat, p: AlignedPair)
    requires r.Shaped() && i < |r.alignment.regions| && p in r.alignment.regions[i].pairs
    ensures var g := r.alignment.regions[i];
      g.sourceParent in r.x.source.nodes && g.targetParent in r.x.target.nodes &&
      IsPosition(r, g.sourceParent, g.targetParent, p)
  {
    var g := r.alignment.regions[i];
    RegionAt(r, i);
    PositionIn(r, i, p);
    var scs, tcs := ChildrenOf(r.x.source, g.sourceParent), ChildrenOf(r.x.target, g.targetParent);
    forall s, t
      ensures r.x.Partners()(s) == Some(t) <==> r.x.graph.Pairs(s, t)
    {
      PartnerIsPair(r, s, t);
    }
    if s :| s in scs && !MatchedHere(r.x.Partners(), tcs, s) && p == SourcePosition(s, r.ambS) {
      SourceHolds(r, s);
    }
    if t :| t in tcs && !Partnered(scs, r.x.Partners(), t) && p == TargetPosition(t, r.ambT) {
      TargetHolds(r, t);
    }
  }

  lemma SourceHolds(r: Run, s: NodeRef)
    requires r.Shaped()
    ensures var p := SourcePosition(s, r.ambS);
      p.source == Some(s) && p.target == None && p.matchId == None &&
      p.kind == (if HeldSource(r.x.graph, s) then UnresolvedSource else SourceOnly) &&
      if HeldSource(r.x.graph, s) then ListsEdges(r.x.graph, p.ambiguousIds, true, s) else p.ambiguousIds == []
  {
    UncertainIffIndexed(r, s);
    UncertainIsHeld(r, s);
    IndexListsEdges(r, s);
  }

  lemma TargetHolds(r: Run, t: NodeRef)
    requires r.Shaped()
    ensures var p := TargetPosition(t, r.ambT);
      p.target == Some(t) && p.source == None && p.matchId == None &&
      p.kind == (if HeldTarget(r.x.graph, t) then UnresolvedTarget else TargetOnly) &&
      if HeldTarget(r.x.graph, t) then ListsEdges(r.x.graph, p.ambiguousIds, false, t) else p.ambiguousIds == []
  {
    UncertainIffIndexed(r, t);
    UncertainIsHeld(r, t);
    IndexListsEdges(r, t);
  }

  /** Regions stand in the order of their source parents, then of their target parents. */
  lemma RegionsAreOrdered(r: Run, i: nat, j: nat)
    requires r.Shaped() && i < j < |r.alignment.regions|
    ensures var g, h := r.alignment.regions[i], r.alignment.regions[j];
      Below(g.sourceParent, h.sourceParent) ||
      (g.sourceParent == h.sourceParent && Below(g.targetParent, h.targetParent))
  {
    assert Matcher.PairBelow(r.alignment.regions[i].Id(), r.alignment.regions[j].Id());
  }

  /** The ids a position carries stand in the order of their string forms. */
  lemma EdgesAreOrdered(r: Run, i: nat, p: AlignedPair, u: nat, v: nat)
    requires r.Shaped() && i < |r.alignment.regions| && p in r.alignment.regions[i].pairs
    requires u < v < |p.ambiguousIds|
    ensures !Below(p.ambiguousIds[v].source + "->" + p.ambiguousIds[v].target,
                   p.ambiguousIds[u].source + "->" + p.ambiguousIds[u].target)
  {
    AlignedShape(r, i, p);
    assert RenderedNotAbove(p.ambiguousIds[u], p.ambiguousIds[v]);
    PrefixKeepsOrder(Arrow(p.ambiguousIds[v]), Arrow(p.ambiguousIds[u]));
  }

  lemma PrefixKeepsOrder(x: string, y: string)
    ensures Below("m:" + x, "m:" + y) <==> Below(x, y)
  {
    assert ("m:" + x)[1..] == ":" + x && ("m:" + y)[1..] == ":" + y;
    assert (":" + x)[1..] == x && (":" + y)[1..] == y;
    BelowFrom("m:" + x, "m:" + y);
    BelowFrom(":" + x, ":" + y);
  }

  // ---------------------------------------------------------------- operations

  /** The confidence of the confirmed candidate of the pair. */
  ghost predicate IsConfidence(g: MatchGraph, s: NodeRef, t: NodeRef, confidence: real)
  {
    exists c ::
      c in g.candidates && c.state == Confirmed && c.source == s && c.target == t && c.confidence == confidence
  }

  lemma ConfidenceOfPair(g: MatchGraph, s: NodeRef, t: NodeRef)
    requires g.Pairs(s, t)
    ensures IsConfidence(g, s, t, g.ConfirmedConfidence(s, t))
  {
    FirstConfidenceFinds(g.candidates, s, t);
  }

  /** The record of an operation about one confirmed pair. */
  ghost predicate IsPairRecord(r: Run, op: StructuralOperation, kind: OperationType, s: NodeRef, t: NodeRef,
                               codes: seq<EvidenceCode>)
  {
    op.kind == kind && op.sources == [s] && op.targets == [t] && op.matchIds == [MatchId(s, t)] && op.codes == codes &&
    r.x.graph.Pairs(s, t) && IsConfidence(r.x.graph, s, t, op.confidence)
  }

  /** From the partner of the old parent, if it has one, to the new parent. */
  ghost predicate NamesParents(r: Run, op: StructuralOperation, s: NodeRef, t: NodeRef)
  {
    s in r.x.source.nodes && t in r.x.target.nodes && r.x.source.nodes[s].parent.Some? &&
    (forall p :: op.fromParent == Some(p) <==> r.x.graph.Pairs(r.x.source.nodes[s].parent.value, p)) &&
    op.toParent == r.x.target.nodes[t].parent
  }

  ghost predicate IsPresenceRecord(op: StructuralOperation, kind: OperationType, sources: seq<NodeRef>,
                                   targets: seq<NodeRef>, codes: seq<EvidenceCode>)
  {
    op.kind == kind && op.sources == sources && op.targets == targets && op.matchIds == [] && op.confidence == 1.0 &&
    op.fromParent == None && op.toParent == None && op.codes == codes
  }

  /** The children of `p` that are kept under one counterpart, in source order, with their partners. */
  ghost predicate IsReorderRecord(r: Run, op: StructuralOperation, p: NodeRef)
  {
    op.kind == Reorder && op.confidence == 1.0 && op.codes == [SiblingOrderChanged] &&
    op.fromParent == None && op.toParent == None && p in r.x.source.nodes &&
    |op.sources| == |op.targets| == |op.matchIds| >= 2 &&
    (forall u :: 0 <= u < |op.sources| ==>
      r.x.graph.Pairs(op.sources[u], op.targets[u]) && op.matchIds[u] == MatchId(op.sources[u], op.targets[u])) &&
    InChildOrder(r.x.source.nodes[p].children, op.sources)
  }

  /** `xs` is a selection from `children` that keeps their order. */
  ghost predicate InChildOrder(children: seq<NodeRef>, xs: seq<NodeRef>)
  {
    exists at: seq<nat> ::
      |at| == |xs| && (forall u :: 0 <= u < |at| ==> at[u] < |children| && children[at[u]] == xs[u]) &&
      forall u, v :: 0 <= u < v < |at| ==> at[u] < at[v]
  }

  /** What every operation of a run says, kind by kind. */
  ghost predicate IsRecord(r: Run, op: StructuralOperation)
  {
    match op.id
    case MatchedId(s, t) =>
      IsPairRecord(r, op, Match, s, t, [IdentityPreserved]) && op.fromParent == None && op.toParent == None
    case UpdateId(s, t) =>
      IsPairRecord(r, op, Update, s, t, [ContentChanged]) && op.fromParent == None && op.toParent == None
    case MoveId(s, t) =>
      IsPairRecord(r, op, Move, s, t, [ConfirmedIdentity, ParentChanged]) && NamesParents(r, op, s, t)
    case DeleteId(s) =>
      IsPresenceRecord(op, Delete, [s], [],
        if HeldSource(r.x.graph, s) then [SourceOnlyCode, ForcedByPolicy] else [SourceOnlyCode])
    case InsertId(t) =>
      IsPresenceRecord(op, Insert, [], [t],
        if HeldTarget(r.x.graph, t) then [TargetOnlyCode, ForcedByPolicy] else [TargetOnlyCode])
    case ReorderId(p) => IsReorderRecord(r, op, p)
  }

  lemma OperationsHold(r: Run, op: StructuralOperation)
    requires r.Sound() && op in r.ops
    ensures IsRecord(r, op)
  {
    assert Reports(r.Ctx(), r.refs, op);
    ReportKind(r.Ctx(), r.refs, op);
    match op.id
    case MatchedId(s, t) => PairHolds(r, op, s, t);
    case UpdateId(s, t) => PairHolds(r, op, s, t);
    case MoveId(s, t) => MoveHolds(r, op, s, t);
    case DeleteId(s) =>
      DeleteReportedIff(r, op, s);
      UncertainIsHeld(r, s);
    case InsertId(t) =>
      InsertReportedIff(r, op, t);
      UncertainIsHeld(r, t);
    case ReorderId(p) => ReorderHolds(r, op, p);
  }

  lemma PairHolds(r: Run, op: StructuralOperation, s: NodeRef, t: NodeRef)
    requires r.Sound() && MatchReported(r.Ctx(), op) && (op.id == MatchedId(s, t) || op.id == UpdateId(s, t))
    ensures IsRecord(r, op)
  {
    MatchReportedIff(r, op, s, t);
    ConfidenceOfPair(r.x.graph, s, t);
  }

  lemma MoveHolds(r: Run, op: StructuralOperation, s: NodeRef, t: NodeRef)
    requires r.Sound() && MoveReported(r.Ctx(), op) && op.id == MoveId(s, t)
    ensures IsRecord(r, op)
  {
    assert r.Ctx().Moved(s, t);
    ConfidenceOfPair(r.x.graph, s, t);
    forall p
      ensures op.fromParent == Some(p) <==> r.x.graph.Pairs(r.x.source.nodes[s].parent.value, p)
    {
      LookupIsPairing(r.x.graph, r.x.source.nodes[s].parent.value, p);
    }
  }

  /** The parents an operation of the REORDER classifier was reported for, and what it lists. */
  lemma ReorderLists(r: Run, op: StructuralOperation, p: NodeRef) returns (tp: NodeRef)
    requires r.Sound() && ReorderReported(r.Ctx(), op) && op.id == ReorderId(p)
    ensures p in r.x.source.nodes && tp in r.x.target.nodes
    ensures var matched := MatchedUnder(r, p, tp);
      |matched| >= 2 && BothSides(AlignedPositions(matched)) &&
      op == StructuralOperation(ReorderId(p), Reorder, SourcesIn(AlignedPositions(matched)),
                                TargetsIn(AlignedPositions(matched)), None, None, 1.0,
                                IdsIn(AlignedPositions(matched)), [SiblingOrderChanged])
  {
    var i :| 0 <= i < |r.alignment.regions| && ReorderAt(r.Ctx(), r.alignment.regions[i]) == Some(op);
    var g := r.alignment.regions[i];
    RegionAt(r, i);
    assert r.x.Describes(g, r.ambS, r.ambT);
    tp := g.targetParent;
    AlignedOfRegion(ChildrenOf(r.x.source, p), ChildrenOf(r.x.target, tp), r.x.Partners(), r.ambS, r.ambT);
  }

  ghost function MatchedUnder(r: Run, p: NodeRef, tp: NodeRef): seq<(NodeRef, NodeRef)>
  {
    var scs := ChildrenOf(r.x.source, p);
    MatchedPairs(scs, ChildrenOf(r.x.target, tp), r.x.Partners(), |scs|)
  }

  lemma MatchedInChildOrder(r: Run, p: NodeRef, tp: NodeRef)
    requires p in r.x.source.nodes && BothSides(AlignedPositions(MatchedUnder(r, p, tp)))
    ensures InChildOrder(r.x.source.nodes[p].children, SourcesIn(AlignedPositions(MatchedUnder(r, p, tp))))
  {
    var scs := ChildrenOf(r.x.source, p);
    var at := MatchedInOrder(scs, ChildrenOf(r.x.target, tp), r.x.Partners(), |scs|);
  }

  lemma MatchedArePairs(r: Run, p: NodeRef, tp: NodeRef)
    requires r.Shaped()
    ensures forall q :: q in MatchedUnder(r, p, tp) ==> r.x.graph.Pairs(q.0, q.1)
  {
    var scs := ChildrenOf(r.x.source, p);
    forall q | q in MatchedUnder(r, p, tp)
      ensures r.x.graph.Pairs(q.0, q.1)
    {
      MatchedPairsAre(scs, ChildrenOf(r.x.target, tp), r.x.Partners(), |scs|, q.0, q.1);
      PartnerIsPair(r, q.0, q.1);
    }
  }

  lemma ReorderHolds(r: Run, op: StructuralOperation, p: NodeRef)
    requires r.Sound() && ReorderReported(r.Ctx(), op) && op.id == ReorderId(p)
    ensures IsReorderRecord(r, op, p)
  {
    var tp := ReorderLists(r, op, p);
    MatchedInChildOrder(r, p, tp);
    MatchedArePairs(r, p, tp);
    var matched := MatchedUnder(r, p, tp);
    assert forall u :: 0 <= u < |matched| ==> matched[u] in matched;
  }

  // ---------------------------------------------------------------- output order

  /** Operations come out by type: deletions, insertions, matches, moves, reorders, updates. */
  function Rank(kind: OperationType): nat
  {
    match kind
    case Delete => 0
    case Insert => 1
    case Match => 2
    case Move => 3
    case Reorder => 4
    case Update => 5
  }

  lemma NamesByRank(a: OperationType, b: OperationType)
    ensures Below(RenderKind(a), RenderKind(b)) <==> Rank(a) < Rank(b)
  {
    var x, y := RenderKind(a), RenderKind(b);
    assert |x| >= 4 && |y| >= 4;
    BelowFrom(x, y);
    BelowFrom(x[1..], y[1..]);
    BelowTotal(x, x);
  }

  /** Within a type the string forms of the ids do not decrease. */
  lemma OutputIsOrdered(r: Run, i: nat, j: nat)
    requires r.Sound() && i < j < |r.ops|
    ensures Rank(r.ops[i].kind) <= Rank(r.ops[j].kind)
    ensures r.ops[i].kind == r.ops[j].kind ==> !Below(RenderId(r.ops[j].id), RenderId(r.ops[i].id))
  {
    SortedPair(r, i, j);
    SortedByRank(r.ops[i], r.ops[j]);
  }

  lemma SortedPair(r: Run, i: nat, j: nat)
    requires r.Classified() && i < j < |r.ops|
    ensures OperationNotAbove(r.ops[i], r.ops[j])
  {
  }

  lemma SortedByRank(a: StructuralOperation, b: StructuralOperation)
    requires OperationNotAbove(a, b)
    ensures Rank(a.kind) <= Rank(b.kind)
    ensures a.kind == b.kind ==> !Below(RenderId(b.id), RenderId(a.id))
  {
    NamesByRank(a.kind, b.kind);
    NamesByRank(b.kind, a.kind);
  }

  lemma BelowFrom(x: string, y: string)
    requires x != [] && y != []
    ensures Below(x, y) <==> x[0] < y[0] || (x[0] == y[0] && Below(x[1..], y[1..]))
  {
  }
}
