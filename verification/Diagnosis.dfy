/**
 * What the aligner and the classifiers say together: each kind of operation is characterised by the
 * trees and the match relation alone, without mention of regions or positions.
 */
module Diagnosis {
  import opened Options
  import opened Ordering
  import opened Trees
  import opened Profiles
  import opened Matches
  import opened Alignment
  import opened Regions
  import opened Aligner
  import opened Operations
  import opened Classification

  /** One run of alignment and classification over a given match graph. */
  datatype Run = Run(
    x: AlignInput,
    profile: OperationProfile,
    alignment: AlignmentResult,
    ambS: AmbiguousIndex,
    ambT: AmbiguousIndex,
    refs: Refs,
    ops: seq<StructuralOperation>)
  {
    function Ctx(): Context
    {
      Context(x.source, x.target, x.graph, alignment, profile)
    }

    /** Valid trees, a one-to-one graph over them, and its alignment. */
    ghost predicate Shaped()
    {
      x.source.Valid() && x.target.Valid() && x.Refers() && x.graph.OneToOne() && x.IsAlignment(alignment, ambS, ambT)
    }

    ghost predicate Classified()
    {
      IsClassification(Ctx(), refs, ops)
    }

    ghost predicate Sound()
    {
      Shaped() && Classified()
    }

    /** A root corresponds to the other root or to nothing. */
    ghost predicate RootsSettled()
    {
      forall s, t :: x.graph.Pairs(s, t) ==> (s == x.source.root <==> t == x.target.root)
    }

    ghost predicate Emits(id: OperationId)
    {
      exists op :: op in ops && op.id == id
    }

    /** Two non-root nodes whose parents correspond. */
    ghost predicate UnderHeads(s: NodeRef, t: NodeRef)
    {
      s in x.source.nodes && t in x.target.nodes &&
      x.source.nodes[s].parent.Some? && x.target.nodes[t].parent.Some? &&
      x.Heads(x.source.nodes[s].parent.value, x.target.nodes[t].parent.value)
    }

    /** A confirmed pair that stayed under corresponding parents. */
    ghost predicate Stays(s: NodeRef, t: NodeRef)
    {
      x.graph.Pairs(s, t) && UnderHeads(s, t)
    }

    /** A confirmed pair of non-root nodes whose parents do not correspond. */
    ghost predicate Crosses(s: NodeRef, t: NodeRef)
    {
      x.graph.Pairs(s, t) && s in x.source.nodes && t in x.target.nodes &&
      x.source.nodes[s].parent.Some? && x.target.nodes[t].parent.Some? && !UnderHeads(s, t)
    }

    ghost predicate Confident(s: NodeRef, t: NodeRef)
    {
      x.graph.ConfirmedConfidence(s, t) >= profile.moveThreshold
    }

    ghost predicate UncertainSource(s: NodeRef)
    {
      s in Ctx().AmbiguousSources()
    }

    ghost predicate UncertainTarget(t: NodeRef)
    {
      t in Ctx().AmbiguousTargets()
    }
  }

  // ---------------------------------------------------------------- regions and their children

  lemma PartnerIsPair(r: Run, s: NodeRef, t: NodeRef)
    requires r.Shaped()
    ensures r.x.Partners()(s) == Some(t) <==> r.x.graph.Pairs(s, t)
  {
    LookupIsPairing(r.x.graph, s, t);
  }

  lemma PartnersInjective(r: Run, scs: seq<NodeRef>)
    requires r.Shaped()
    ensures Injective(r.x.Partners(), scs)
  {
    forall s, s2 | s in scs && s2 in scs && r.x.Partners()(s).Some? && r.x.Partners()(s) == r.x.Partners()(s2)
      ensures s == s2
    {
      var t := r.x.Partners()(s).value;
      PartnerIsPair(r, s, t);
      PartnerIsPair(r, s2, t);
      PairsUnique(r.x.graph, s, t, s2, t);
    }
  }

  lemma RegionAt(r: Run, i: nat)
    requires r.Shaped() && i < |r.alignment.regions|
    ensures var g := r.alignment.regions[i];
      g.sourceParent in r.x.source.nodes && g.targetParent in r.x.target.nodes &&
      r.x.Heads(g.sourceParent, g.targetParent)
  {
    assert r.x.Describes(r.alignment.regions[i], r.ambS, r.ambT);
  }

  function ChildrenOf(t: Tree, n: NodeRef): seq<NodeRef>
  {
    if n in t.nodes then t.nodes[n].children else []
  }

  /** Membership of a position in a region, in terms of trees and matches. */
  lemma PositionIn(r: Run, i: nat, p: AlignedPair)
    requires r.Shaped() && i < |r.alignment.regions|
    ensures var g := r.alignment.regions[i];
      var scs, tcs := ChildrenOf(r.x.source, g.sourceParent), ChildrenOf(r.x.target, g.targetParent);
      p in g.pairs <==>
        AlignedHere(p, scs, tcs, r.x.Partners()) || LeftHere(p, scs, tcs, r.x.Partners(), r.ambS) ||
        RightHere(p, scs, tcs, r.x.Partners(), r.ambT)
  {
    var g := r.alignment.regions[i];
    assert r.x.Describes(g, r.ambS, r.ambT);
    PositionsAre(r.x.source.nodes[g.sourceParent].children, r.x.target.nodes[g.targetParent].children,
                 r.x.Partners(), r.ambS, r.ambT, p);
  }

  lemma IndexedIffUncertain(cs: seq<MatchCandidate>, onSource: bool, settled: set<NodeRef>, index: AmbiguousIndex,
                            n: NodeRef)
    requires IsAmbiguousIndex(cs, onSource, settled, index)
    ensures n in index <==> n !in settled && exists c :: c in cs && EndOf(c, onSource) == n
  {
    if n in index {
      var id := index[n][0];
      assert id in index[n];
      assert Touches(cs, onSource, n, id);
    }
  }

  lemma UncertainIffIndexed(r: Run, n: NodeRef)
    requires r.x.Refers() && r.x.IsAlignment(r.alignment, r.ambS, r.ambT)
    ensures n in r.ambS <==> r.UncertainSource(n)
    ensures n in r.ambT <==> r.UncertainTarget(n)
    ensures n in r.ambS ==> r.ambS[n] != []
    ensures n in r.ambT ==> r.ambT[n] != []
  {
    var cs := r.x.graph.candidates;
    IndexedIffUncertain(WithState(cs, Ambiguous), true, set c | c in cs && c.state == Confirmed :: c.source, r.ambS, n);
    var settled := set c | c in cs && c.state == Confirmed :: c.target;
    IndexedIffUncertain(WithState(cs, Ambiguous), false, settled, r.ambT, n);
  }

  // ---------------------------------------------------------------- positions of one node

  ghost predicate Positioned(r: Run, i: nat, p: AlignedPair)
  {
    i < |r.alignment.regions| && p in r.alignment.regions[i].pairs
  }

  lemma AlignedIffStays(r: Run, s: NodeRef, t: NodeRef)
    requires r.Shaped()
    ensures (exists i :: Positioned(r, i, AlignedPosition((s, t)))) <==> r.Stays(s, t)
  {
    var p := AlignedPosition((s, t));
    if i: nat :| Positioned(r, i, p) {
      RegionAt(r, i);
      PositionIn(r, i, p);
      var g := r.alignment.regions[i];
      PartnerIsPair(r, s, t);
      ChildIffParent(r.x.source, s, g.sourceParent);
      ChildIffParent(r.x.target, t, g.targetParent);
    }
    if r.Stays(s, t) {
      var sp, tp := r.x.source.nodes[s].parent.value, r.x.target.nodes[t].parent.value;
      assert HasRegion(r.alignment, sp, tp);
      var i: nat :| i < |r.alignment.regions| && r.alignment.regions[i].sourceParent == sp &&
        r.alignment.regions[i].targetParent == tp;
      RegionAt(r, i);
      PositionIn(r, i, p);
      PartnerIsPair(r, s, t);
      assert r.x.source.LinksAt(s) && r.x.target.LinksAt(t);
      assert AlignedHere(p, r.x.source.nodes[sp].children, r.x.target.nodes[tp].children, r.x.Partners());
      assert Positioned(r, i, p);
    }
  }

  /** A child of the region's source parent without a partner among the target children. */
  ghost predicate SoleSource(r: Run, i: nat, s: NodeRef)
    requires r.Shaped() && i < |r.alignment.regions|
  {
    var g := r.alignment.regions[i];
    RegionAt(r, i);
    s in r.x.source.nodes && r.x.source.nodes[s].parent == Some(g.sourceParent) &&
    forall t :: r.x.graph.Pairs(s, t) ==> r.x.target.nodes[t].parent != Some(g.targetParent)
  }

  ghost predicate SoleTarget(r: Run, i: nat, t: NodeRef)
    requires r.Shaped() && i < |r.alignment.regions|
  {
    var g := r.alignment.regions[i];
    t in r.x.target.nodes && r.x.target.nodes[t].parent == Some(g.targetParent) &&
    forall s :: r.x.graph.Pairs(s, t) ==> r.x.source.nodes[s].parent != Some(g.sourceParent)
  }

  lemma SourceSideIff(r: Run, i: nat, s: NodeRef)
    requires r.Shaped() && i < |r.alignment.regions|
    ensures SourcePosition(s, r.ambS) in r.alignment.regions[i].pairs <==> SoleSource(r, i, s)
  {
    var p := SourcePosition(s, r.ambS);
    RegionAt(r, i);
    PositionIn(r, i, p);
    var g := r.alignment.regions[i];
    ChildIffParent(r.x.source, s, g.sourceParent);
    forall t
      ensures r.x.Partners()(s) == Some(t) <==> r.x.graph.Pairs(s, t)
      ensures t in r.x.target.nodes[g.targetParent].children <==>
        t in r.x.target.nodes && r.x.target.nodes[t].parent == Some(g.targetParent)
    {
      PartnerIsPair(r, s, t);
      ChildIffParent(r.x.target, t, g.targetParent);
    }
  }

  lemma TargetSideIff(r: Run, i: nat, t: NodeRef)
    requires r.Shaped() && i < |r.alignment.regions|
    ensures TargetPosition(t, r.ambT) in r.alignment.regions[i].pairs <==> SoleTarget(r, i, t)
  {
    var p := TargetPosition(t, r.ambT);
    RegionAt(r, i);
    PositionIn(r, i, p);
    var g := r.alignment.regions[i];
    ChildIffParent(r.x.target, t, g.targetParent);
    forall s
      ensures r.x.Partners()(s) == Some(t) <==> r.x.graph.Pairs(s, t)
      ensures s in r.x.source.nodes[g.sourceParent].children <==>
        s in r.x.source.nodes && r.x.source.nodes[s].parent == Some(g.sourceParent)
    {
      PartnerIsPair(r, s, t);
      ChildIffParent(r.x.source, s, g.sourceParent);
    }
  }

  // ---------------------------------------------------------------- where an operation comes from

  /** An emitted id is reported by the classifier of its kind, and the other way round. */
  lemma EmitsIff(r: Run, id: OperationId)
    requires r.Classified()
    ensures r.Emits(id) <==> exists op: StructuralOperation :: op.id == id && Reports(r.Ctx(), r.refs, op)
    ensures (id.MatchedId? || id.UpdateId?) ==>
      (r.Emits(id) <==> exists op: StructuralOperation :: op.id == id && MatchReported(r.Ctx(), op))
    ensures (id.DeleteId? || id.InsertId?) ==>
      (r.Emits(id) <==> exists op: StructuralOperation :: op.id == id && PresenceReported(r.Ctx(), r.refs, op))
    ensures id.MoveId? ==> (r.Emits(id) <==> exists op: StructuralOperation :: op.id == id && MoveReported(r.Ctx(), op))
    ensures id.ReorderId? ==>
      (r.Emits(id) <==> exists op: StructuralOperation :: op.id == id && ReorderReported(r.Ctx(), op))
  {
    forall op
      ensures MatchReported(r.Ctx(), op) ==> op.id.MatchedId? || op.id.UpdateId?
      ensures PresenceReported(r.Ctx(), r.refs, op) ==> op.id.DeleteId? || op.id.InsertId?
      ensures MoveReported(r.Ctx(), op) ==> op.id.MoveId?
      ensures ReorderReported(r.Ctx(), op) ==> op.id.ReorderId?
      ensures op in r.ops <==> Reports(r.Ctx(), r.refs, op)
    {
    }
  }

  lemma MatchReportedIff(r: Run, op: StructuralOperation, s: NodeRef, t: NodeRef)
    requires r.Shaped() && (op.id == MatchedId(s, t) || op.id == UpdateId(s, t))
    ensures MatchReported(r.Ctx(), op) <==>
      r.Stays(s, t) && op == MatchOperation(r.Ctx(), s, t, ContentDiffers(r.Ctx(), s, t)) &&
      op.kind in r.profile.enabled
  {
    AlignedIffStays(r, s, t);
    var p := AlignedPosition((s, t));
    if MatchReported(r.Ctx(), op) {
      var i, j :| 0 <= i < |r.alignment.regions| && 0 <= j < |r.alignment.regions[i].pairs| &&
        MatchAt(r.Ctx(), r.alignment.regions[i].pairs[j]) == Some(op);
      AlignedShape(r, i, r.alignment.regions[i].pairs[j]);
      assert Positioned(r, i, p);
    }
    if r.Stays(s, t) && op == MatchOperation(r.Ctx(), s, t, ContentDiffers(r.Ctx(), s, t)) &&
      op.kind in r.profile.enabled {
      var i: nat :| Positioned(r, i, p);
      var j :| 0 <= j < |r.alignment.regions[i].pairs| && r.alignment.regions[i].pairs[j] == p;
      assert MatchAt(r.Ctx(), r.alignment.regions[i].pairs[j]) == Some(op);
    }
  }

  /** Positions have one of five shapes. */
  lemma AlignedShape(r: Run, i: nat, p: AlignedPair)
    requires r.Shaped() && i < |r.alignment.regions| && p in r.alignment.regions[i].pairs
    ensures p.kind == Aligned ==>
      p.source.Some? && p.target.Some? && p == AlignedPosition((p.source.value, p.target.value))
    ensures p.kind in {SourceOnly, UnresolvedSource} ==> p.source.Some? && p == SourcePosition(p.source.value, r.ambS)
    ensures p.kind in {TargetOnly, UnresolvedTarget} ==> p.target.Some? && p == TargetPosition(p.target.value, r.ambT)
  {
    PositionIn(r, i, p);
  }

  lemma CrossParentIffCrosses(r: Run, s: NodeRef, t: NodeRef)
    requires r.Shaped()
    ensures r.x.graph.Pairs(s, t) && r.Ctx().IsCrossParent(s, t) <==> r.Crosses(s, t)
    ensures r.Ctx().Moved(s, t) <==> r.Crosses(s, t) && r.Confident(s, t)
  {
    if r.x.graph.Pairs(s, t) && r.x.source.nodes[s].parent.Some? && r.x.target.nodes[t].parent.Some? {
      LookupIsPairing(r.x.graph, r.x.source.nodes[s].parent.value, r.x.target.nodes[t].parent.value);
    }
  }

  lemma MovedRefs(r: Run, n: NodeRef)
    requires r.Shaped() && AreRefs(r.Ctx(), r.refs)
    ensures n in r.refs.movedSources <==> exists t :: r.Crosses(n, t) && r.Confident(n, t)
    ensures n in r.refs.movedTargets <==> exists s :: r.Crosses(s, n) && r.Confident(s, n)
  {
    forall t
      ensures r.Ctx().Moved(n, t) <==> r.Crosses(n, t) && r.Confident(n, t)
      ensures r.Ctx().Moved(t, n) <==> r.Crosses(t, n) && r.Confident(t, n)
    {
      CrossParentIffCrosses(r, n, t);
      CrossParentIffCrosses(r, t, n);
    }
  }

  /** The presence policy lets region `i` speak about a node of the given certainty. */
  ghost predicate Speaks(r: Run, i: nat, uncertain: bool)
    requires i < |r.alignment.regions|
  {
    (r.profile.presence == SuppressUnresolvedRegions ==> !r.alignment.regions[i].unresolved) &&
    (r.profile.presence != EmitAll ==> !uncertain)
  }

  ghost predicate DeletedAt(r: Run, s: NodeRef, i: nat)
    requires r.Shaped()
  {
    i < |r.alignment.regions| && SoleSource(r, i, s) && Speaks(r, i, r.UncertainSource(s))
  }

  ghost predicate InsertedAt(r: Run, t: NodeRef, i: nat)
    requires r.Shaped()
  {
    i < |r.alignment.regions| && SoleTarget(r, i, t) && Speaks(r, i, r.UncertainTarget(t))
  }

  /** What a source-side position yields. */
  lemma SourcePositionYields(r: Run, i: nat, s: NodeRef)
    requires r.x.Refers() && r.x.IsAlignment(r.alignment, r.ambS, r.ambT) && AreRefs(r.Ctx(), r.refs)
    requires i < |r.alignment.regions|
    ensures PresenceAt(r.Ctx(), r.refs, r.alignment.regions[i], SourcePosition(s, r.ambS)) ==
      if Speaks(r, i, r.UncertainSource(s)) && s !in r.refs.movedSources && Delete in r.profile.enabled
      then Some(DeleteOperation(s, r.UncertainSource(s))) else None
  {
    UncertainIffIndexed(r, s);
  }

  lemma TargetPositionYields(r: Run, i: nat, t: NodeRef)
    requires r.x.Refers() && r.x.IsAlignment(r.alignment, r.ambS, r.ambT) && AreRefs(r.Ctx(), r.refs)
    requires i < |r.alignment.regions|
    ensures PresenceAt(r.Ctx(), r.refs, r.alignment.regions[i], TargetPosition(t, r.ambT)) ==
      if Speaks(r, i, r.UncertainTarget(t)) && t !in r.refs.movedTargets && Insert in r.profile.enabled
      then Some(InsertOperation(t, r.UncertainTarget(t))) else None
  {
    UncertainIffIndexed(r, t);
  }

  lemma DeleteReportedIff(r: Run, op: StructuralOperation, s: NodeRef)
    requires r.Shaped() && AreRefs(r.Ctx(), r.refs) && op.id == DeleteId(s)
    ensures PresenceReported(r.Ctx(), r.refs, op) <==>
      op == DeleteOperation(s, r.UncertainSource(s)) && Delete in r.profile.enabled && s !in r.refs.movedSources &&
      exists i: nat :: DeletedAt(r, s, i)
  {
    var p := SourcePosition(s, r.ambS);
    if PresenceReported(r.Ctx(), r.refs, op) {
      var i, j :| 0 <= i < |r.alignment.regions| && 0 <= j < |r.alignment.regions[i].pairs| &&
        PresenceAt(r.Ctx(), r.refs, r.alignment.regions[i], r.alignment.regions[i].pairs[j]) == Some(op);
      AlignedShape(r, i, r.alignment.regions[i].pairs[j]);
      SourceSideIff(r, i, s);
      SourcePositionYields(r, i, s);
      assert DeletedAt(r, s, i);
    }
    if i: nat :| DeletedAt(r, s, i) {
      SourceSideIff(r, i, s);
      SourcePositionYields(r, i, s);
      var j :| 0 <= j < |r.alignment.regions[i].pairs| && r.alignment.regions[i].pairs[j] == p;
    }
  }

  lemma InsertReportedIff(r: Run, op: StructuralOperation, t: NodeRef)
    requires r.Shaped() && AreRefs(r.Ctx(), r.refs) && op.id == InsertId(t)
    ensures PresenceReported(r.Ctx(), r.refs, op) <==>
      op == InsertOperation(t, r.UncertainTarget(t)) && Insert in r.profile.enabled && t !in r.refs.movedTargets &&
      exists i: nat :: InsertedAt(r, t, i)
  {
    var p := TargetPosition(t, r.ambT);
    if PresenceReported(r.Ctx(), r.refs, op) {
      var i, j :| 0 <= i < |r.alignment.regions| && 0 <= j < |r.alignment.regions[i].pairs| &&
        PresenceAt(r.Ctx(), r.refs, r.alignment.regions[i], r.alignment.regions[i].pairs[j]) == Some(op);
      AlignedShape(r, i, r.alignment.regions[i].pairs[j]);
      TargetSideIff(r, i, t);
      TargetPositionYields(r, i, t);
      assert InsertedAt(r, t, i);
    }
    if i: nat :| InsertedAt(r, t, i) {
      TargetSideIff(r, i, t);
      TargetPositionYields(r, i, t);
      var j :| 0 <= j < |r.alignment.regions[i].pairs| && r.alignment.regions[i].pairs[j] == p;
    }
  }

  lemma MatchFound(r: Run, id: OperationId, s: NodeRef, t: NodeRef)
    requires r.Shaped() && (id == MatchedId(s, t) || id == UpdateId(s, t))
    ensures (exists op: StructuralOperation :: op.id == id && MatchReported(r.Ctx(), op)) <==>
      r.Stays(s, t) && (ContentDiffers(r.Ctx(), s, t) <==> id.UpdateId?) &&
      (if id.UpdateId? then Update else Match) in r.profile.enabled
  {
    var op := MatchOperation(r.Ctx(), s, t, ContentDiffers(r.Ctx(), s, t));
    if op.id == id { MatchReportedIff(r, op, s, t); }
    if o: StructuralOperation :| o.id == id && MatchReported(r.Ctx(), o) { MatchReportedIff(r, o, s, t); }
  }

  lemma DeleteFound(r: Run, s: NodeRef)
    requires r.Shaped() && AreRefs(r.Ctx(), r.refs)
    ensures (exists op: StructuralOperation :: op.id == DeleteId(s) && PresenceReported(r.Ctx(), r.refs, op)) <==>
      Delete in r.profile.enabled && s !in r.refs.movedSources && exists i: nat :: DeletedAt(r, s, i)
  {
    var op := DeleteOperation(s, r.UncertainSource(s));
    DeleteReportedIff(r, op, s);
    if o: StructuralOperation :| o.id == DeleteId(s) && PresenceReported(r.Ctx(), r.refs, o) {
      DeleteReportedIff(r, o, s);
    }
  }

  lemma InsertFound(r: Run, t: NodeRef)
    requires r.Shaped() && AreRefs(r.Ctx(), r.refs)
    ensures (exists op: StructuralOperation :: op.id == InsertId(t) && PresenceReported(r.Ctx(), r.refs, op)) <==>
      Insert in r.profile.enabled && t !in r.refs.movedTargets && exists i: nat :: InsertedAt(r, t, i)
  {
    var op := InsertOperation(t, r.UncertainTarget(t));
    InsertReportedIff(r, op, t);
    if o: StructuralOperation :| o.id == InsertId(t) && PresenceReported(r.Ctx(), r.refs, o) {
      InsertReportedIff(r, o, t);
    }
  }

  lemma MoveFound(r: Run, s: NodeRef, t: NodeRef)
    requires r.Shaped()
    ensures (exists op: StructuralOperation :: op.id == MoveId(s, t) && MoveReported(r.Ctx(), op)) <==>
      r.Crosses(s, t) && r.Confident(s, t) && Move in r.profile.enabled
  {
    CrossParentIffCrosses(r, s, t);
    if r.Ctx().Moved(s, t) && Move in r.profile.enabled {
      assert MoveReported(r.Ctx(), MoveOperation(r.Ctx(), s, t));
    }
  }

  // ---------------------------------------------------------------- one lemma per operation kind

  /** MATCH: a pair under corresponding parents with unchanged content; UPDATE: with changed content. */
  lemma MatchIff(r: Run, s: NodeRef, t: NodeRef)
    requires r.Sound()
    ensures r.Emits(MatchedId(s, t)) <==>
      r.Stays(s, t) && !ContentDiffers(r.Ctx(), s, t) && Match in r.profile.enabled
    ensures r.Emits(UpdateId(s, t)) <==>
      r.Stays(s, t) && ContentDiffers(r.Ctx(), s, t) && Update in r.profile.enabled
  {
    EmitsIff(r, MatchedId(s, t));
    EmitsIff(r, UpdateId(s, t));
    MatchFound(r, MatchedId(s, t), s, t);
    MatchFound(r, UpdateId(s, t), s, t);
  }

  /** MOVE: a confident pair whose parents do not correspond. */
  lemma MoveIff(r: Run, s: NodeRef, t: NodeRef)
    requires r.Sound()
    ensures r.Emits(MoveId(s, t)) <==> r.Crosses(s, t) && r.Confident(s, t) && Move in r.profile.enabled
  {
    EmitsIff(r, MoveId(s, t));
    MoveFound(r, s, t);
  }

  /** DELETE: a one-sided child of a corresponding parent that neither moved nor is withheld. */
  lemma DeleteIff(r: Run, s: NodeRef)
    requires r.Sound()
    ensures r.Emits(DeleteId(s)) <==>
      Delete in r.profile.enabled && (forall t :: !(r.Crosses(s, t) && r.Confident(s, t))) &&
      exists i: nat :: DeletedAt(r, s, i)
  {
    EmitsIff(r, DeleteId(s));
    DeleteFound(r, s);
    MovedRefs(r, s);
  }

  /** INSERT: the same on the target side. */
  lemma InsertIff(r: Run, t: NodeRef)
    requires r.Sound()
    ensures r.Emits(InsertId(t)) <==>
      Insert in r.profile.enabled && (forall s :: !(r.Crosses(s, t) && r.Confident(s, t))) &&
      exists i: nat :: InsertedAt(r, t, i)
  {
    EmitsIff(r, InsertId(t));
    InsertFound(r, t);
    MovedRefs(r, t);
  }
}
