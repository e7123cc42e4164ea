/** What every run guarantees: nothing is lost, every match has one diagnosis, records are well formed. */
module Guarantees {
  import opened Options
  import opened Ordering
  import opened Trees
  import opened Profiles
  import opened Matches
  import opened Alignment
  import opened Aligner
  import opened Operations
  import opened Classification
  import opened Diagnosis
  import opened Regularity

  // ---------------------------------------------------------------- nothing is lost

  ghost predicate UnmatchedSource(r: Run, n: NodeRef)
  {
    n in r.x.source.nodes && n != r.x.source.root && forall t :: !r.x.graph.Pairs(n, t)
  }

  ghost predicate UnmatchedTarget(r: Run, n: NodeRef)
  {
    n in r.x.target.nodes && n != r.x.target.root && forall s :: !r.x.graph.Pairs(s, n)
  }

  ghost predicate UnresolvedSourceAt(r: Run, n: NodeRef)
  {
    exists i: nat, p :: Positioned(r, i, p) && p.kind == UnresolvedSource && p.source == Some(n)
  }

  ghost predicate UnresolvedTargetAt(r: Run, n: NodeRef)
  {
    exists i: nat, p :: Positioned(r, i, p) && p.kind == UnresolvedTarget && p.target == Some(n)
  }

  /** The cautious policy keeps a whole region silent because something in it is unresolved. */
  ghost predicate SilencedSource(r: Run, n: NodeRef)
  {
    r.profile.presence == SuppressUnresolvedRegions &&
    exists i: nat, p :: Positioned(r, i, p) && p.source == Some(n) && r.alignment.regions[i].unresolved
  }

  ghost predicate SilencedTarget(r: Run, n: NodeRef)
  {
    r.profile.presence == SuppressUnresolvedRegions &&
    exists i: nat, p :: Positioned(r, i, p) && p.target == Some(n) && r.alignment.regions[i].unresolved
  }

  lemma RegionUnder(r: Run, sp: NodeRef, tp: NodeRef) returns (i: nat)
    requires r.Shaped() && r.x.Heads(sp, tp)
    ensures i < |r.alignment.regions|
    ensures r.alignment.regions[i].sourceParent == sp && r.alignment.regions[i].targetParent == tp
  {
    assert HasRegion(r.alignment, sp, tp);
    i :| i < |r.alignment.regions| && r.alignment.regions[i].sourceParent == sp &&
      r.alignment.regions[i].targetParent == tp;
  }

  lemma UnmatchedChildIsReported(r: Run, n: NodeRef, tp: NodeRef)
    requires r.Sound() && Delete in r.profile.enabled && UnmatchedSource(r, n)
    requires r.x.source.nodes[n].parent.Some? && r.x.Heads(r.x.source.nodes[n].parent.value, tp)
    ensures r.Emits(DeleteId(n)) || UnresolvedSourceAt(r, n) || SilencedSource(r, n)
  {
    var i := RegionUnder(r, r.x.source.nodes[n].parent.value, tp);
    SourceSideIff(r, i, n);
    UncertainIffIndexed(r, n);
    assert Positioned(r, i, SourcePosition(n, r.ambS));
    if !UnresolvedSourceAt(r, n) && !SilencedSource(r, n) {
      assert Speaks(r, i, r.UncertainSource(n));
      assert DeletedAt(r, n, i);
      DeleteIff(r, n);
    }
  }

  /** Every unmatched source node is at or below a DELETE or an unresolved position. */
  lemma {:induction false} NoSourceNodeIsLost(r: Run, n: NodeRef) returns (a: NodeRef)
    requires r.Sound() && Delete in r.profile.enabled && UnmatchedSource(r, n)
    ensures r.x.source.AtOrBelow(n, a)
    ensures r.Emits(DeleteId(a)) || UnresolvedSourceAt(r, a) || SilencedSource(r, a)
    decreases Level(r.x.source, n)
  {
    LevelOfParent(r.x.source, n);
    var sp := r.x.source.nodes[n].parent.value;
    assert r.x.source.Up(n, 0) == Some(n);
    if sp == r.x.source.root {
      UnmatchedChildIsReported(r, n, r.x.target.root);
      a := n;
    } else if tp :| r.x.graph.Pairs(sp, tp) {
      UnmatchedChildIsReported(r, n, tp);
      a := n;
    } else {
      a := NoSourceNodeIsLost(r, sp);
      var k: nat :| r.x.source.Up(sp, k) == Some(a);
      assert r.x.source.Up(n, k + 1) == Some(a);
    }
  }

  lemma UnmatchedTargetChildIsReported(r: Run, n: NodeRef, sp: NodeRef)
    requires r.Sound() && Insert in r.profile.enabled && UnmatchedTarget(r, n)
    requires r.x.target.nodes[n].parent.Some? && r.x.Heads(sp, r.x.target.nodes[n].parent.value)
    ensures r.Emits(InsertId(n)) || UnresolvedTargetAt(r, n) || SilencedTarget(r, n)
  {
    var i := RegionUnder(r, sp, r.x.target.nodes[n].parent.value);
    TargetSideIff(r, i, n);
    UncertainIffIndexed(r, n);
    assert Positioned(r, i, TargetPosition(n, r.ambT));
    if !UnresolvedTargetAt(r, n) && !SilencedTarget(r, n) {
      assert Speaks(r, i, r.UncertainTarget(n));
      assert InsertedAt(r, n, i);
      InsertIff(r, n);
    }
  }

  /** Every unmatched target node is at or below an INSERT or an unresolved position. */
  lemma {:induction false} NoTargetNodeIsLost(r: Run, n: NodeRef) returns (a: NodeRef)
    requires r.Sound() && Insert in r.profile.enabled && UnmatchedTarget(r, n)
    ensures r.x.target.AtOrBelow(n, a)
    ensures r.Emits(InsertId(a)) || UnresolvedTargetAt(r, a) || SilencedTarget(r, a)
    decreases Level(r.x.target, n)
  {
    LevelOfParent(r.x.target, n);
    var tp := r.x.target.nodes[n].parent.value;
    assert r.x.target.Up(n, 0) == Some(n);
    if tp == r.x.target.root {
      UnmatchedTargetChildIsReported(r, n, r.x.source.root);
      a := n;
    } else if sp :| r.x.graph.Pairs(sp, tp) {
      UnmatchedTargetChildIsReported(r, n, sp);
      a := n;
    } else {
      a := NoTargetNodeIsLost(r, tp);
      var k: nat :| r.x.target.Up(tp, k) == Some(a);
      assert r.x.target.Up(n, k + 1) == Some(a);
    }
  }

  // ---------------------------------------------------------------- one diagnosis per match

  /** One MATCH or UPDATE and nothing else about the pair. */
  ghost predicate DiagnosedInPlace(r: Run, s: NodeRef, t: NodeRef)
  {
    (r.Emits(MatchedId(s, t)) <==> !r.Emits(UpdateId(s, t))) && !r.Emits(MoveId(s, t)) &&
    !r.Emits(DeleteId(s)) && !r.Emits(InsertId(t))
  }

  /** One MOVE and nothing else about the pair. */
  ghost predicate DiagnosedMoved(r: Run, s: NodeRef, t: NodeRef)
  {
    r.Emits(MoveId(s, t)) && !r.Emits(MatchedId(s, t)) && !r.Emits(UpdateId(s, t)) &&
    !r.Emits(DeleteId(s)) && !r.Emits(InsertId(t))
  }

  /** No operation speaks of the correspondence itself. */
  ghost predicate Undiagnosed(r: Run, s: NodeRef, t: NodeRef)
  {
    !r.Emits(MatchedId(s, t)) && !r.Emits(UpdateId(s, t)) && !r.Emits(MoveId(s, t))
  }

  lemma StayingIsNotOneSided(r: Run, s: NodeRef, t: NodeRef, i: nat)
    requires r.Shaped() && r.RootsSettled() && r.Stays(s, t) && i < |r.alignment.regions|
    ensures !SoleSource(r, i, s) && !SoleTarget(r, i, t)
  {
    var g := r.alignment.regions[i];
    RegionAt(r, i);
    HeadsUnique(r, g.sourceParent, g.targetParent, r.x.source.nodes[s].parent.value, r.x.target.nodes[t].parent.value);
  }

  lemma NonRootHasParent(t: Tree, n: NodeRef)
    requires t.Valid() && n in t.nodes
    ensures n != t.root <==> t.nodes[n].parent.Some?
  {
    assert t.LinksAt(n);
  }

  /**
   * Each confirmed pair of non-root nodes is exactly one of: aligned, with one MATCH or UPDATE;
   * moved, with one MOVE; below the move threshold, with neither.
   */
  lemma EveryMatchHasOneDiagnosis(r: Run, s: NodeRef, t: NodeRef)
    requires r.Sound() && r.RootsSettled() && r.profile.AllEnabled()
    requires r.x.graph.Pairs(s, t) && s != r.x.source.root
    ensures r.Stays(s, t) <==> DiagnosedInPlace(r, s, t)
    ensures r.Crosses(s, t) && r.Confident(s, t) <==> DiagnosedMoved(r, s, t)
    ensures r.Crosses(s, t) && !r.Confident(s, t) <==> Undiagnosed(r, s, t)
    ensures r.Stays(s, t) <==> !r.Crosses(s, t)
  {
    NonRootHasParent(r.x.source, s);
    NonRootHasParent(r.x.target, t);
    MatchIff(r, s, t);
    MoveIff(r, s, t);
    DeleteIff(r, s);
    InsertIff(r, t);
    if r.Stays(s, t) {
      forall i: nat | i < |r.alignment.regions|
        ensures !SoleSource(r, i, s) && !SoleTarget(r, i, t)
      {
        StayingIsNotOneSided(r, s, t, i);
      }
    }
  }

  // ---------------------------------------------------------------- matched and one-sided at once

  /** Some child on either side is held in an ambiguity. */
  ghost predicate Contested(r: Run, sp: NodeRef, tp: NodeRef)
  {
    (exists c :: c in r.x.source.nodes && r.x.source.nodes[c].parent == Some(sp) && r.UncertainSource(c)) ||
    exists c :: c in r.x.target.nodes && r.x.target.nodes[c].parent == Some(tp) && r.UncertainTarget(c)
  }

  /** The presence policy says nothing about the children of these parents. */
  ghost predicate Quiet(r: Run, sp: NodeRef, tp: NodeRef)
  {
    r.profile.presence == SuppressUnresolvedRegions && Contested(r, sp, tp)
  }

  lemma ConfirmedIsCertain(r: Run, s: NodeRef, t: NodeRef)
    requires r.x.graph.Pairs(s, t)
    ensures !r.UncertainSource(s) && !r.UncertainTarget(t)
  {
  }

  lemma UncertainIsUnresolved(r: Run, i: nat, c: NodeRef)
    requires r.Shaped() && i < |r.alignment.regions|
    ensures var g := r.alignment.regions[i];
      c in r.x.source.nodes && r.x.source.nodes[c].parent == Some(g.sourceParent) && r.UncertainSource(c) ==>
        g.unresolved
    ensures var g := r.alignment.regions[i];
      c in r.x.target.nodes && r.x.target.nodes[c].parent == Some(g.targetParent) && r.UncertainTarget(c) ==>
        g.unresolved
  {
    var g := r.alignment.regions[i];
    assert r.x.Describes(g, r.ambS, r.ambT);
    UncertainIffIndexed(r, c);
    if c in r.x.source.nodes && r.x.source.nodes[c].parent == Some(g.sourceParent) && r.UncertainSource(c) {
      SourceSideIff(r, i, c);
      var j :| 0 <= j < |g.pairs| && g.pairs[j] == SourcePosition(c, r.ambS);
      assert g.pairs[j].IsUnresolved();
    }
    if c in r.x.target.nodes && r.x.target.nodes[c].parent == Some(g.targetParent) && r.UncertainTarget(c) {
      TargetSideIff(r, i, c);
      var j :| 0 <= j < |g.pairs| && g.pairs[j] == TargetPosition(c, r.ambT);
      assert g.pairs[j].IsUnresolved();
    }
  }

  /** A region is unresolved exactly when one of the children it aligns is held in an ambiguity. */
  lemma UnresolvedIffContested(r: Run, i: nat)
    requires r.Shaped() && i < |r.alignment.regions|
    ensures var g := r.alignment.regions[i];
      g.unresolved <==> Contested(r, g.sourceParent, g.targetParent)
  {
    var g := r.alignment.regions[i];
    assert r.x.Describes(g, r.ambS, r.ambT);
    if g.unresolved {
      var j :| 0 <= j < |g.pairs| && g.pairs[j].IsUnresolved();
      AlignedShape(r, i, g.pairs[j]);
      PositionsOfRegion(r, i, g.pairs[j]);
      UncertainIffIndexed(r, if g.pairs[j].source.Some? then g.pairs[j].source.value else g.pairs[j].target.value);
    }
    forall c
      ensures c in r.x.source.nodes && r.x.source.nodes[c].parent == Some(g.sourceParent) && r.UncertainSource(c) ==>
        g.unresolved
      ensures c in r.x.target.nodes && r.x.target.nodes[c].parent == Some(g.targetParent) && r.UncertainTarget(c) ==>
        g.unresolved
    {
      UncertainIsUnresolved(r, i, c);
    }
  }

  /** Where a certain source is alone: its parent corresponds to `tp`, which is not silenced. */
  ghost predicate AloneUnder(r: Run, s: NodeRef, tp: NodeRef)
  {
    s in r.x.source.nodes && r.x.source.nodes[s].parent.Some? && r.x.Heads(r.x.source.nodes[s].parent.value, tp) &&
    !Quiet(r, r.x.source.nodes[s].parent.value, tp) &&
    forall t :: r.x.graph.Pairs(s, t) && t in r.x.target.nodes ==> r.x.target.nodes[t].parent != Some(tp)
  }

  ghost predicate NewUnder(r: Run, t: NodeRef, sp: NodeRef)
  {
    t in r.x.target.nodes && r.x.target.nodes[t].parent.Some? && r.x.Heads(sp, r.x.target.nodes[t].parent.value) &&
    !Quiet(r, sp, r.x.target.nodes[t].parent.value) &&
    forall s :: r.x.graph.Pairs(s, t) && s in r.x.source.nodes ==> r.x.source.nodes[s].parent != Some(sp)
  }

  /** The presence policy lets a node of this certainty be called missing or extra. */
  ghost predicate MaySpeak(r: Run, uncertain: bool)
  {
    r.profile.presence == EmitAll || !uncertain
  }

  lemma DeletedAtIff(r: Run, s: NodeRef, i: nat)
    requires r.Shaped() && i < |r.alignment.regions|
    ensures var g := r.alignment.regions[i];
      DeletedAt(r, s, i) <==>
        MaySpeak(r, r.UncertainSource(s)) && AloneUnder(r, s, g.targetParent) &&
        r.x.source.nodes[s].parent == Some(g.sourceParent)
  {
    RegionAt(r, i);
    UnresolvedIffContested(r, i);
  }

  lemma InsertedAtIff(r: Run, t: NodeRef, i: nat)
    requires r.Shaped() && i < |r.alignment.regions|
    ensures var g := r.alignment.regions[i];
      InsertedAt(r, t, i) <==>
        MaySpeak(r, r.UncertainTarget(t)) && NewUnder(r, t, g.sourceParent) &&
        r.x.target.nodes[t].parent == Some(g.targetParent)
  {
    RegionAt(r, i);
    UnresolvedIffContested(r, i);
  }

  lemma DeletedSomewhere(r: Run, s: NodeRef)
    requires r.Shaped()
    ensures (exists i: nat :: DeletedAt(r, s, i)) <==>
      MaySpeak(r, r.UncertainSource(s)) && exists tp :: AloneUnder(r, s, tp)
  {
    if i: nat :| DeletedAt(r, s, i) { DeletedAtIff(r, s, i); }
    if tp :| AloneUnder(r, s, tp) {
      var i := RegionUnder(r, r.x.source.nodes[s].parent.value, tp);
      DeletedAtIff(r, s, i);
    }
  }

  lemma InsertedSomewhere(r: Run, t: NodeRef)
    requires r.Shaped()
    ensures (exists i: nat :: InsertedAt(r, t, i)) <==>
      MaySpeak(r, r.UncertainTarget(t)) && exists sp :: NewUnder(r, t, sp)
  {
    if i: nat :| InsertedAt(r, t, i) { InsertedAtIff(r, t, i); }
    if sp :| NewUnder(r, t, sp) {
      var i := RegionUnder(r, sp, r.x.target.nodes[t].parent.value);
      InsertedAtIff(r, t, i);
    }
  }

  lemma OnlyPartner(r: Run, s: NodeRef, t: NodeRef)
    requires r.Shaped() && r.x.graph.Pairs(s, t)
    ensures forall t2 :: r.x.graph.Pairs(s, t2) ==> t2 == t
    ensures forall s2 :: r.x.graph.Pairs(s2, t) ==> s2 == s
  {
    forall t2 | r.x.graph.Pairs(s, t2)
      ensures t2 == t
    {
      PairsUnique(r.x.graph, s, t, s, t2);
    }
    forall s2 | r.x.graph.Pairs(s2, t)
      ensures s2 == s
    {
      PairsUnique(r.x.graph, s, t, s2, t);
    }
  }

  /**
   * Under every policy a confirmed node is reported as deleted exactly when its pair is no confident
   * move and its parent corresponds to a node that is not the parent of its partner.
   */
  lemma PairedIsDeletedIff(r: Run, s: NodeRef, t: NodeRef)
    requires r.Sound() && r.x.graph.Pairs(s, t)
    ensures r.Emits(DeleteId(s)) <==>
      Delete in r.profile.enabled && !(r.Crosses(s, t) && r.Confident(s, t)) && exists tp :: AloneUnder(r, s, tp)
  {
    DeleteIff(r, s);
    DeletedSomewhere(r, s);
    OnlyPartner(r, s, t);
    ConfirmedIsCertain(r, s, t);
  }

  lemma PairedIsInsertedIff(r: Run, s: NodeRef, t: NodeRef)
    requires r.Sound() && r.x.graph.Pairs(s, t)
    ensures r.Emits(InsertId(t)) <==>
      Insert in r.profile.enabled && !(r.Crosses(s, t) && r.Confident(s, t)) && exists sp :: NewUnder(r, t, sp)
  {
    InsertIff(r, t);
    InsertedSomewhere(r, t);
    OnlyPartner(r, s, t);
    ConfirmedIsCertain(r, s, t);
  }

  /**
   * An unmatched node is reported as deleted exactly when its parent corresponds to a node and nothing
   * withholds it.
   */
  lemma UnmatchedIsDeletedIff(r: Run, s: NodeRef)
    requires r.Sound() && UnmatchedSource(r, s)
    ensures r.Emits(DeleteId(s)) <==>
      Delete in r.profile.enabled && (r.profile.presence == EmitAll || !r.UncertainSource(s)) &&
      exists tp :: AloneUnder(r, s, tp)
  {
    DeleteIff(r, s);
    DeletedSomewhere(r, s);
  }

  /**
   * A below-threshold pair is promised to degrade to DELETE and INSERT. It does so on a side exactly
   * when the parent on that side corresponds to some node, that is, is a root or confirmed, and the
   * policy does not silence the children there.
   */
  lemma WeakMoveDegradesIff(r: Run, s: NodeRef, t: NodeRef)
    requires r.Sound() && r.profile.AllEnabled() && r.Crosses(s, t) && !r.Confident(s, t)
    ensures var sp, tp := r.x.source.nodes[s].parent.value, r.x.target.nodes[t].parent.value;
      (r.Emits(DeleteId(s)) <==> exists q :: r.x.Heads(sp, q) && !Quiet(r, sp, q)) &&
      (r.Emits(InsertId(t)) <==> exists p :: r.x.Heads(p, tp) && !Quiet(r, p, tp))
  {
    PairedIsDeletedIff(r, s, t);
    PairedIsInsertedIff(r, s, t);
    OnlyPartner(r, s, t);
    var sp, tp := r.x.source.nodes[s].parent.value, r.x.target.nodes[t].parent.value;
    forall q
      ensures AloneUnder(r, s, q) <==> r.x.Heads(sp, q) && !Quiet(r, sp, q)
      ensures NewUnder(r, t, q) <==> r.x.Heads(q, tp) && !Quiet(r, q, tp)
    {
    }
  }

  /** The source root heads `tp` besides the target root, and the one that `t` does not hang under speaks. */
  ghost predicate SecondHead(r: Run, t: NodeRef, tp: NodeRef)
    requires t in r.x.target.nodes
  {
    tp != r.x.target.root && r.x.graph.Pairs(r.x.source.root, tp) &&
    !Quiet(r, r.x.source.root, if r.x.target.nodes[t].parent == Some(r.x.target.root) then tp else r.x.target.root)
  }

  ghost predicate SecondTail(r: Run, s: NodeRef, sp: NodeRef)
    requires s in r.x.source.nodes
  {
    sp != r.x.source.root && r.x.graph.Pairs(sp, r.x.target.root) &&
    !Quiet(r, if r.x.source.nodes[s].parent == Some(r.x.source.root) then sp else r.x.source.root, r.x.target.root)
  }

  /**
   * A pair in place, reported as MATCH or UPDATE, is reported as deleted as well exactly when it hangs
   * under a source root that is confirmed to a non-root, and as inserted as well in the mirror case.
   */
  lemma UnsettledRootContradictsIff(r: Run, s: NodeRef, t: NodeRef)
    requires r.Sound() && r.profile.AllEnabled() && r.Stays(s, t)
    ensures r.Emits(MatchedId(s, t)) || r.Emits(UpdateId(s, t))
    ensures r.Emits(DeleteId(s)) <==>
      r.x.source.nodes[s].parent == Some(r.x.source.root) &&
      exists tp :: SecondHead(r, t, tp)
    ensures r.Emits(InsertId(t)) <==>
      r.x.target.nodes[t].parent == Some(r.x.target.root) &&
      exists sp :: SecondTail(r, s, sp)
  {
    MatchIff(r, s, t);
    PairedIsDeletedIff(r, s, t);
    PairedIsInsertedIff(r, s, t);
    OnlyPartner(r, s, t);
    AloneIffSecondHead(r, s, t);
    NewIffSecondTail(r, s, t);
  }

  lemma AloneIffSecondHead(r: Run, s: NodeRef, t: NodeRef)
    requires r.Shaped() && r.Stays(s, t)
    ensures (exists tp :: AloneUnder(r, s, tp)) <==>
      r.x.source.nodes[s].parent == Some(r.x.source.root) &&
      exists tp :: SecondHead(r, t, tp)
  {
    OnlyPartner(r, s, t);
    var p, q := r.x.source.nodes[s].parent.value, r.x.target.nodes[t].parent.value;
    if tp :| AloneUnder(r, s, tp) {
      if r.x.graph.Pairs(p, tp) { OnlyPartner(r, p, tp); }
      assert SecondHead(r, t, if q == r.x.target.root then tp else q);
    }
    if tp :| p == r.x.source.root && SecondHead(r, t, tp) {
      OnlyPartner(r, p, tp);
      assert AloneUnder(r, s, if q == r.x.target.root then tp else r.x.target.root);
    }
  }

  lemma NewIffSecondTail(r: Run, s: NodeRef, t: NodeRef)
    requires r.Shaped() && r.Stays(s, t)
    ensures (exists sp :: NewUnder(r, t, sp)) <==>
      r.x.target.nodes[t].parent == Some(r.x.target.root) &&
      exists sp :: SecondTail(r, s, sp)
  {
    OnlyPartner(r, s, t);
    var p, q := r.x.source.nodes[s].parent.value, r.x.target.nodes[t].parent.value;
    if sp :| NewUnder(r, t, sp) {
      if r.x.graph.Pairs(sp, q) { OnlyPartner(r, sp, q); }
      assert SecondTail(r, s, if p == r.x.source.root then sp else p);
    }
    if sp :| q == r.x.target.root && SecondTail(r, s, sp) {
      OnlyPartner(r, sp, q);
      assert NewUnder(r, t, if p == r.x.source.root then sp else r.x.source.root);
    }
  }

  // ---------------------------------------------------------------- uncertainty is not absence

  /** Under either suppressing policy no DELETE or INSERT names a node held in an ambiguity. */
  lemma NoPresenceClaimOnUncertainNodes(r: Run, n: NodeRef)
    requires r.Sound() && r.profile.presence != EmitAll
    ensures r.UncertainSource(n) ==> !r.Emits(DeleteId(n))
    ensures r.UncertainTarget(n) ==> !r.Emits(InsertId(n))
  {
    DeleteIff(r, n);
    InsertIff(r, n);
  }

  // ---------------------------------------------------------------- operation contracts

  lemma {:induction false} ConfidenceInRange(cs: seq<MatchCandidate>, s: NodeRef, t: NodeRef)
    requires forall c :: c in cs ==> 0.0 <= c.confidence <= 1.0
    ensures 0.0 <= FirstConfidence(cs, s, t) <= 1.0
  {
    if cs != [] {
      ConfidenceInRange(cs[1..], s, t);
      assert cs[0] in cs;
    }
  }

  /** No operation constructor can raise: each MOVE changes parent, each REORDER has two siblings. */
  lemma OperationsAreWellFormed(r: Run, op: StructuralOperation)
    requires r.Sound() && op in r.ops
    requires forall c :: c in r.x.graph.candidates ==> 0.0 <= c.confidence <= 1.0
    ensures op.WellFormed()
  {
    assert Reports(r.Ctx(), r.refs, op);
    ReportKind(r.Ctx(), r.refs, op);
    ReportedIsWellFormed(r, op);
  }

  lemma ReportedIsWellFormed(r: Run, op: StructuralOperation)
    requires r.Shaped() && AreRefs(r.Ctx(), r.refs) && ReportedByKind(r.Ctx(), r.refs, op)
    requires forall c :: c in r.x.graph.candidates ==> 0.0 <= c.confidence <= 1.0
    ensures op.WellFormed()
  {
    match op.id
    case MatchedId(s, t) => MatchReportedIff(r, op, s, t); ConfidenceInRange(r.x.graph.candidates, s, t);
    case UpdateId(s, t) => MatchReportedIff(r, op, s, t); ConfidenceInRange(r.x.graph.candidates, s, t);
    case DeleteId(s) => DeleteReportedIff(r, op, s);
    case InsertId(t) => InsertReportedIff(r, op, t);
    case MoveId(s, t) => ConfidenceInRange(r.x.graph.candidates, s, t);
    case ReorderId(p) =>
  }
}
