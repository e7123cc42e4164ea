/** With unique authoritative identifiers the match graph is exactly the relation of equal ids. */
module Twins {
  import opened Options
  import opened Ordering
  import opened Trees
  import opened Profiles
  import opened Evidence
  import opened Matches
  import opened Contest
  import opened Matcher
  import opened Diagnosis
  import opened Pipeline

  predicate SameId(source: Tree, target: Tree, s: NodeRef, t: NodeRef)
  {
    s in source.nodes && t in target.nodes &&
    PersistentIdOf(source.nodes[s]).Some? && PersistentIdOf(source.nodes[s]) == PersistentIdOf(target.nodes[t])
  }

  /** The roots belong together; other nodes do if they share an id. */
  predicate Twin(source: Tree, target: Tree, s: NodeRef, t: NodeRef)
  {
    if s == source.root || t == target.root
    then s == source.root && t == target.root && s in source.nodes && t in target.nodes
    else SameId(source, target, s, t)
  }

  /**
   * Every source node below the root has an id of its own, which at most one target node repeats, with
   * the same type. The root may do without an id, but no other node may use its id.
   */
  ghost predicate Identified(source: Tree, target: Tree)
  {
    (forall s :: s in source.nodes && s != source.root ==> PersistentIdOf(source.nodes[s]).Some?) &&
    (forall s, s2 | s in source.nodes && s2 in source.nodes && PersistentIdOf(source.nodes[s]).Some? ::
      PersistentIdOf(source.nodes[s]) == PersistentIdOf(source.nodes[s2]) ==> s == s2) &&
    (forall s, t, t2 :: SameId(source, target, s, t) && SameId(source, target, s, t2) ==> t == t2) &&
    (forall s, t :: SameId(source, target, s, t) ==> source.nodes[s].nodeType == target.nodes[t].nodeType) &&
    forall s, t :: SameId(source, target, s, t) ==> (s == source.root <==> t == target.root)
  }

  /** One side has no node without an equal id on the other. */
  ghost predicate OneSideCovered(source: Tree, target: Tree)
  {
    (forall s :: s in source.nodes ==> exists t :: SameId(source, target, s, t)) ||
    (forall t :: t in target.nodes ==> exists s :: SameId(source, target, s, t))
  }

  /** Neither side has one, except perhaps its root. */
  ghost predicate BothSidesCovered(source: Tree, target: Tree)
  {
    (forall s :: s in source.nodes && s != source.root ==> exists t :: SameId(source, target, s, t)) &&
    (forall t :: t in target.nodes && t != target.root ==> exists s :: SameId(source, target, s, t))
  }

  lemma TwinIsAuthoritative(source: Tree, target: Tree, signature: Node -> string, x: MatchInput, s: NodeRef,
                            t: NodeRef)
    requires IsIndex(source, target, signature, x.ev) && Identified(source, target)
    requires PersistentId in x.profile.authoritative
    ensures SameId(source, target, s, t) <==> x.AuthPair(s, t)
    ensures SameId(source, target, s, t) ==> x.AuthConfirmed(s, t)
  {
    if s in source.nodes && t in target.nodes {
      EvidenceIds(source, signature, x.ev.source, x.ev.duplicateSourceIds);
      EvidenceIds(target, signature, x.ev.target, x.ev.duplicateTargetIds);
      if SameId(source, target, s, t) {
        assert !Duplicated(x.ev.source, x.ev.source[s].persistentId.value);
        forall t2 | t2 in x.ev.target && x.ev.target[t2].persistentId == x.ev.target[t].persistentId
          ensures t2 == t
        {
          assert SameId(source, target, s, t2);
        }
        assert !Duplicated(x.ev.target, x.ev.target[t].persistentId.value);
      }
    }
  }

  /** What the matcher needs to know of the evidence: ids, types and the node set. */
  lemma EvidenceIds(t: Tree, signature: Node -> string, side: Side, duplicates: set<string>)
    requires IsEvidence(t, signature, side, duplicates)
    ensures side.Keys == t.nodes.Keys
    ensures forall n :: n in side ==> side[n].persistentId == PersistentIdOf(t.nodes[n])
    ensures forall n :: n in side ==> side[n].nodeType == t.nodes[n].nodeType
    ensures forall id :: id in duplicates <==> Duplicated(side, id)
  {
  }

  /** At most the two roots are left for the similarity phase. */
  lemma OnlyRootsPlausible(source: Tree, target: Tree, signature: Node -> string, x: MatchInput, s: NodeRef, t: NodeRef)
    requires IsIndex(source, target, signature, x.ev) && Identified(source, target)
    requires OneSideCovered(source, target) || BothSidesCovered(source, target)
    requires PersistentId in x.profile.authoritative
    ensures x.Phase2().Plausible(s, t) ==> s == source.root && t == target.root
  {
    forall s2, t2 | SameId(source, target, s2, t2)
      ensures s2 !in x.FreeSources() && t2 !in x.FreeTargets()
    {
      TwinIsAuthoritative(source, target, signature, x, s2, t2);
    }
    if s in x.FreeSources() && t in x.FreeTargets() { assert s in source.nodes && t in target.nodes; }
  }

  lemma NoContest(source: Tree, target: Tree, signature: Node -> string, x: MatchInput, s: NodeRef, t: NodeRef)
    requires IsIndex(source, target, signature, x.ev) && Identified(source, target)
    requires OneSideCovered(source, target) || BothSidesCovered(source, target)
    requires PersistentId in x.profile.authoritative
    ensures !x.Phase2().Edge(s, t)
    ensures x.Phase2().Wins(s, t) ==> s == source.root && t == target.root
  {
    forall s2, t2
      ensures x.Phase2().Plausible(s2, t2) ==> s2 == source.root && t2 == target.root
    {
      OnlyRootsPlausible(source, target, signature, x, s2, t2);
    }
    if x.Phase2().Edge(s, t) {
      var s2, t2 := EdgeHasAlternative(x.Phase2(), s, t);
      EdgeIsPlausible(x.Phase2(), s, t);
      EdgeIsPlausible(x.Phase2(), s2, t2);
    }
  }

  lemma EdgeIsPlausible(c: Contest, s: NodeRef, t: NodeRef)
    requires c.Edge(s, t)
    ensures c.Plausible(s, t)
  {
  }

  /** The verdict on every pair but the roots: twins are confirmed with certainty, all else is unlisted. */
  lemma VerdictIsTwins(source: Tree, target: Tree, signature: Node -> string, x: MatchInput, s: NodeRef, t: NodeRef)
    requires IsIndex(source, target, signature, x.ev) && Identified(source, target)
    requires OneSideCovered(source, target) || BothSidesCovered(source, target)
    requires PersistentId in x.profile.authoritative
    ensures s != source.root ==> x.Verdict(s, t) == if Twin(source, target, s, t) then Some(Confirmed) else None
    ensures s == source.root ==> x.Verdict(s, t) == None || (x.Verdict(s, t) == Some(Confirmed) && t == target.root)
    ensures SameId(source, target, s, t) ==> x.ConfidenceOf(s, t) == 1.0
  {
    TwinIsAuthoritative(source, target, signature, x, s, t);
    NoContest(source, target, signature, x, s, t);
  }

  lemma TwinConfidence(x: MatchInput, g: MatchGraph, s: NodeRef, t: NodeRef)
    requires x.IsGraph(g) && g.Pairs(s, t) && x.AuthConfirmed(s, t)
    ensures g.ConfirmedConfidence(s, t) == 1.0
  {
    FirstConfidenceFinds(g.candidates, s, t);
    var c :| c in g.candidates && c.state == Confirmed && c.source == s && c.target == t &&
      c.confidence == g.ConfirmedConfidence(s, t);
    assert x.Describes(c);
  }

  /** A run that confirms exactly the twins below the roots, with full confidence and no ambiguity. */
  ghost predicate ByTwins(r: Run)
  {
    r.Sound() && r.RootsSettled() && r.profile.AllEnabled() &&
    (forall s, t :: s != r.x.source.root ==> (r.x.graph.Pairs(s, t) <==> Twin(r.x.source, r.x.target, s, t))) &&
    (forall s, t :: s != r.x.source.root && r.x.graph.Pairs(s, t) ==> r.Confident(s, t)) &&
    (forall n :: !r.UncertainSource(n) && !r.UncertainTarget(n))
  }

  lemma IdentifiedRunIsByTwins(z: Reconciliation)
    requires z.Produced() && z.run.profile.AllEnabled()
    requires PersistentId in z.input.profile.authoritative
    requires Identified(z.run.x.source, z.run.x.target)
    requires OneSideCovered(z.run.x.source, z.run.x.target) || BothSidesCovered(z.run.x.source, z.run.x.target)
    ensures ByTwins(z.run)
  {
    ProducedIsSound(z);
    var source, target, g := z.run.x.source, z.run.x.target, z.run.x.graph;
    forall s, t
      ensures s != source.root ==> (g.Pairs(s, t) <==> Twin(source, target, s, t))
      ensures g.Pairs(s, t) ==> (s == source.root <==> t == target.root)
      ensures z.input.Verdict(s, t) != Some(Ambiguous)
    {
      CandidateAt(z.input, g, s, t);
      VerdictIsTwins(source, target, z.signature, z.input, s, t);
    }
    forall s, t | s != source.root && g.Pairs(s, t)
      ensures z.run.Confident(s, t)
    {
      TwinIsAuthoritative(source, target, z.signature, z.input, s, t);
      TwinConfidence(z.input, g, s, t);
    }
    forall n
      ensures !z.run.UncertainSource(n) && !z.run.UncertainTarget(n)
    {
      UncertainIffEdge(z, n);
    }
  }
}
