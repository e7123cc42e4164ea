/** Regions do not overlap, operation ids are distinct, and REORDER means an inversion. */
module Regularity {
  import opened Options
  import opened Ordering
  import opened Trees
  import opened Profiles
  import opened Matches
  import opened Alignment
  import opened Regions
  import opened Aligner
  import opened Operations
  import opened Classification
  import opened Diagnosis

  // ---------------------------------------------------------------- one region per parent

  lemma HeadsUnique(r: Run, s: NodeRef, t: NodeRef, s2: NodeRef, t2: NodeRef)
    requires r.Shaped() && r.RootsSettled() && r.x.Heads(s, t) && r.x.Heads(s2, t2)
    ensures s == s2 <==> t == t2
  {
    if r.x.graph.Pairs(s, t) && r.x.graph.Pairs(s2, t2) { PairsUnique(r.x.graph, s, t, s2, t2); }
  }

  lemma RegionIdUnique(r: Run, i: nat, j: nat)
    requires r.Shaped() && i < |r.alignment.regions| && j < |r.alignment.regions|
    requires r.alignment.regions[i].Id() == r.alignment.regions[j].Id()
    ensures i == j
  {
    if i < j { RegionIdsDiffer(r.x, r.alignment, r.ambS, r.ambT, i, j); }
    if j < i { RegionIdsDiffer(r.x, r.alignment, r.ambS, r.ambT, j, i); }
  }

  ghost predicate OneRegionPerParent(r: Run)
  {
    forall i, j :: 0 <= i < |r.alignment.regions| && 0 <= j < |r.alignment.regions| && i != j ==>
      r.alignment.regions[i].sourceParent != r.alignment.regions[j].sourceParent &&
      r.alignment.regions[i].targetParent != r.alignment.regions[j].targetParent
  }

  /**
   * The aligner always pairs the two roots, so a root confirmed to some other node heads two regions.
   * Regions are unique per parent exactly when the roots are settled.
   */
  lemma RegionsUniqueIffRootsSettled(r: Run)
    requires r.Shaped()
    ensures OneRegionPerParent(r) <==> r.RootsSettled()
  {
    if r.RootsSettled() {
      forall i, j | 0 <= i < |r.alignment.regions| && 0 <= j < |r.alignment.regions| && i != j
        ensures r.alignment.regions[i].sourceParent != r.alignment.regions[j].sourceParent
        ensures r.alignment.regions[i].targetParent != r.alignment.regions[j].targetParent
      {
        var g, h := r.alignment.regions[i], r.alignment.regions[j];
        RegionAt(r, i);
        RegionAt(r, j);
        HeadsUnique(r, g.sourceParent, g.targetParent, h.sourceParent, h.targetParent);
        if g.Id() == h.Id() { RegionIdUnique(r, i, j); }
      }
    }
    if OneRegionPerParent(r) {
      assert HasRegion(r.alignment, r.x.source.root, r.x.target.root);
      forall s, t | r.x.graph.Pairs(s, t)
        ensures s == r.x.source.root <==> t == r.x.target.root
      {
        assert HasRegion(r.alignment, s, t);
      }
    }
  }

  // ---------------------------------------------------------------- regions and positions

  lemma PositionsOfRegion(r: Run, i: nat, p: AlignedPair)
    requires r.Shaped() && i < |r.alignment.regions| && p in r.alignment.regions[i].pairs
    ensures p.source.Some? ==>
      p.source.value in r.x.source.nodes &&
      r.x.source.nodes[p.source.value].parent == Some(r.alignment.regions[i].sourceParent)
    ensures p.target.Some? ==>
      p.target.value in r.x.target.nodes &&
      r.x.target.nodes[p.target.value].parent == Some(r.alignment.regions[i].targetParent)
  {
    var g := r.alignment.regions[i];
    RegionAt(r, i);
    PositionIn(r, i, p);
    if p.source.Some? { ChildIffParent(r.x.source, p.source.value, g.sourceParent); }
    if p.target.Some? { ChildIffParent(r.x.target, p.target.value, g.targetParent); }
  }

  /** In every region of a run each child of the two parents sits in exactly one position, and nothing else does. */
  lemma RunPartitionsChildren(r: Run, i: nat)
    requires r.Shaped() && i < |r.alignment.regions|
    ensures var g := r.alignment.regions[i];
      (forall c :: MentionsSource(g.pairs, c) <==>
        c in r.x.source.nodes && r.x.source.nodes[c].parent == Some(g.sourceParent)) &&
      (forall c :: MentionsTarget(g.pairs, c) <==>
        c in r.x.target.nodes && r.x.target.nodes[c].parent == Some(g.targetParent)) &&
      Apart(g.pairs) &&
      |g.pairs| + |AlignedOf(g.pairs, |g.pairs|)| ==
        |ChildrenOf(r.x.source, g.sourceParent)| + |ChildrenOf(r.x.target, g.targetParent)|
  {
    var g := r.alignment.regions[i];
    RegionAt(r, i);
    var scs, tcs := ChildrenOf(r.x.source, g.sourceParent), ChildrenOf(r.x.target, g.targetParent);
    assert r.x.Describes(g, r.ambS, r.ambT);
    PartnersInjective(r, scs);
    RegionPartitionsChildren(scs, tcs, r.x.Partners(), r.ambS, r.ambT);
    AlignedOfRegion(scs, tcs, r.x.Partners(), r.ambS, r.ambT);
    forall c
      ensures c in scs <==> c in r.x.source.nodes && r.x.source.nodes[c].parent == Some(g.sourceParent)
      ensures c in tcs <==> c in r.x.target.nodes && r.x.target.nodes[c].parent == Some(g.targetParent)
    {
      ChildIffParent(r.x.source, c, g.sourceParent);
      ChildIffParent(r.x.target, c, g.targetParent);
    }
  }

  /** The classifier that reported an operation shows in its id. */
  ghost predicate ReportedByKind(ctx: Context, refs: Refs, op: StructuralOperation)
  {
    match op.id
    case MatchedId(_, _) => MatchReported(ctx, op)
    case UpdateId(_, _) => MatchReported(ctx, op)
    case DeleteId(_) => PresenceReported(ctx, refs, op)
    case InsertId(_) => PresenceReported(ctx, refs, op)
    case MoveId(_, _) => MoveReported(ctx, op)
    case ReorderId(_) => ReorderReported(ctx, op)
  }

  lemma ReportKind(ctx: Context, refs: Refs, op: StructuralOperation)
    ensures Reports(ctx, refs, op) <==> ReportedByKind(ctx, refs, op)
  {
  }

  lemma OperationNamesSource(r: Run, op: StructuralOperation)
    requires r.Sound() && op in r.ops && NamesPair(op.id)
    ensures op.id.source in r.x.source.nodes
  {
    assert Reports(r.Ctx(), r.refs, op);
    ReportKind(r.Ctx(), r.refs, op);
    if !op.id.MoveId? { MatchReportedIff(r, op, op.id.source, op.id.target); }
  }

  // ---------------------------------------------------------------- REORDER

  lemma {:induction false} AlignedOfConcat(a: seq<AlignedPair>, b: seq<AlignedPair>, k: nat, n: nat)
    requires k <= |b| && n == |a| + k
    ensures AlignedOf(a + b, n) == AlignedOf(a, |a|) + AlignedOf(b, k)
    decreases k
  {
    if k > 0 {
      AlignedOfConcat(a, b, k - 1, n - 1);
      assert (a + b)[n - 1] == b[k - 1];
    } else {
      AlignedOfPrefix(a, b, |a|);
    }
  }

  lemma {:induction false} AlignedOfPrefix(a: seq<AlignedPair>, b: seq<AlignedPair>, k: nat)
    requires k <= |a|
    ensures AlignedOf(a + b, k) == AlignedOf(a, k)
  {
    if k > 0 { AlignedOfPrefix(a, b, k - 1); }
  }

  lemma {:induction false} AlignedOfAll(a: seq<AlignedPair>, k: nat)
    requires k <= |a|
    ensures (forall i :: 0 <= i < |a| ==> a[i].kind == Aligned) ==> AlignedOf(a, k) == a[..k]
    ensures (forall i :: 0 <= i < |a| ==> a[i].kind != Aligned) ==> AlignedOf(a, k) == []
  {
    if k > 0 {
      AlignedOfAll(a, k - 1);
      assert a[..k] == a[..k - 1] + [a[k - 1]];
    }
  }

  /** The ALIGNED positions of a region are its matched pairs, in source order. */
  lemma AlignedOfRegion(scs: seq<NodeRef>, tcs: seq<NodeRef>, partner: Partner, ambS: AmbiguousIndex,
                        ambT: AmbiguousIndex)
    requires Distinct(scs) && Distinct(tcs)
    ensures var pairs := PositionsFor(scs, tcs, partner, ambS, ambT);
      AlignedOf(pairs, |pairs|) == AlignedPositions(MatchedPairs(scs, tcs, partner, |scs|))
  {
    var matched := MatchedPairs(scs, tcs, partner, |scs|);
    var settled := TargetsOf(matched);
    var aligned := AlignedPositions(matched);
    var left := SourcePositions(scs, partner, settled, ambS, |scs|);
    var right := TargetPositions(tcs, settled, ambT, |tcs|);
    forall i | 0 <= i < |left|
      ensures left[i].kind != Aligned
    {
      SourcePositionsAre(scs, partner, settled, ambS, |scs|, left[i]);
    }
    forall i | 0 <= i < |right|
      ensures right[i].kind != Aligned
    {
      TargetPositionsAre(tcs, settled, ambT, |tcs|, right[i]);
    }
    AlignedOfParts(aligned, left, right);
  }

  lemma AlignedOfParts(aligned: seq<AlignedPair>, left: seq<AlignedPair>, right: seq<AlignedPair>)
    requires forall i :: 0 <= i < |aligned| ==> aligned[i].kind == Aligned
    requires forall i :: 0 <= i < |left| ==> left[i].kind != Aligned
    requires forall i :: 0 <= i < |right| ==> right[i].kind != Aligned
    ensures AlignedOf(aligned + left + right, |aligned + left + right|) == aligned
  {
    AlignedOfJoin(aligned, left);
    AlignedOfJoin(aligned + left, right);
    AlignedOnly(aligned);
    NoneAligned(left);
    NoneAligned(right);
  }

  lemma AlignedOfJoin(a: seq<AlignedPair>, b: seq<AlignedPair>)
    ensures AlignedOf(a + b, |a + b|) == AlignedOf(a, |a|) + AlignedOf(b, |b|)
  {
    AlignedOfConcat(a, b, |b|, |a + b|);
  }

  lemma AlignedOnly(a: seq<AlignedPair>)
    requires forall i :: 0 <= i < |a| ==> a[i].kind == Aligned
    ensures AlignedOf(a, |a|) == a
  {
    AlignedOfAll(a, |a|);
    assert a[..|a|] == a;
  }

  lemma NoneAligned(a: seq<AlignedPair>)
    requires forall i :: 0 <= i < |a| ==> a[i].kind != Aligned
    ensures AlignedOf(a, |a|) == []
  {
    AlignedOfAll(a, |a|);
  }

  /** Matched siblings under corresponding, ordered parents stand in opposite orders. */
  ghost predicate Shuffled(r: Run, sp: NodeRef, tp: NodeRef)
  {
    sp in r.x.source.nodes && r.x.Heads(sp, tp) && r.x.profile.OrderedFor(r.x.source.nodes[sp].nodeType) &&
    Inverted(ChildrenOf(r.x.source, sp), ChildrenOf(r.x.target, tp), r.x.Partners())
  }

  /** What the REORDER classifier reads off a region. */
  lemma RegionOrder(r: Run, i: nat)
    requires r.Shaped() && i < |r.alignment.regions|
    ensures var g := r.alignment.regions[i];
      (g.ordered && g.orderChanged <==> Shuffled(r, g.sourceParent, g.targetParent)) &&
      (g.orderChanged ==> |AlignedOf(g.pairs, |g.pairs|)| >= 2) && BothSides(AlignedOf(g.pairs, |g.pairs|))
  {
    var g := r.alignment.regions[i];
    RegionAt(r, i);
    var scs, tcs := ChildrenOf(r.x.source, g.sourceParent), ChildrenOf(r.x.target, g.targetParent);
    assert r.x.Describes(g, r.ambS, r.ambT);
    PartnersInjective(r, scs);
    OrderChangedIffInverted(scs, tcs, r.x.Partners());
    AlignedOfRegion(scs, tcs, r.x.Partners(), r.ambS, r.ambT);
  }

  lemma ReorderAtIff(r: Run, i: nat)
    requires r.Shaped() && i < |r.alignment.regions|
    ensures var g := r.alignment.regions[i];
      ReorderAt(r.Ctx(), g).Some? <==> Reorder in r.profile.enabled && Shuffled(r, g.sourceParent, g.targetParent)
    ensures ReorderAt(r.Ctx(), r.alignment.regions[i]).Some? ==>
      ReorderAt(r.Ctx(), r.alignment.regions[i]).value.id == ReorderId(r.alignment.regions[i].sourceParent)
  {
    RegionOrder(r, i);
  }

  /** REORDER: an ordered parent whose matched children are inverted; never for an unordered one. */
  lemma ReorderIff(r: Run, sp: NodeRef)
    requires r.Sound()
    ensures r.Emits(ReorderId(sp)) <==> Reorder in r.profile.enabled && exists tp :: Shuffled(r, sp, tp)
  {
    EmitsIff(r, ReorderId(sp));
    ReorderFound(r, sp);
  }

  lemma ReorderFound(r: Run, sp: NodeRef)
    requires r.Shaped()
    ensures (exists op: StructuralOperation :: op.id == ReorderId(sp) && ReorderReported(r.Ctx(), op)) <==>
      Reorder in r.profile.enabled && exists tp :: Shuffled(r, sp, tp)
  {
    if op: StructuralOperation :| op.id == ReorderId(sp) && ReorderReported(r.Ctx(), op) {
      var i :| 0 <= i < |r.alignment.regions| && ReorderAt(r.Ctx(), r.alignment.regions[i]) == Some(op);
      ReorderAtIff(r, i);
    }
    if tp :| Shuffled(r, sp, tp) && Reorder in r.profile.enabled {
      var op := ShuffledIsReported(r, sp, tp);
    }
  }

  lemma ShuffledIsReported(r: Run, sp: NodeRef, tp: NodeRef) returns (op: StructuralOperation)
    requires r.Shaped() && Shuffled(r, sp, tp) && Reorder in r.profile.enabled
    ensures op.id == ReorderId(sp) && ReorderReported(r.Ctx(), op)
  {
    assert HasRegion(r.alignment, sp, tp);
    var i: nat :| i < |r.alignment.regions| && r.alignment.regions[i].sourceParent == sp &&
      r.alignment.regions[i].targetParent == tp;
    ReorderAtIff(r, i);
    op := ReorderAt(r.Ctx(), r.alignment.regions[i]).value;
  }
}
