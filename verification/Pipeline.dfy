/** From evidence to operations: every run of the core pipeline meets the guarantees. */
module Pipeline {
  import opened Options
  import opened Ordering
  import opened Trees
  import opened Profiles
  import opened Evidence
  import opened Scoring
  import opened Matches
  import opened Contest
  import opened Matcher
  import opened Verdicts
  import opened Aligner
  import opened Alignment
  import opened Classification
  import opened Operations
  import opened Diagnosis
  import opened Guarantees

  /** A match input together with the alignment and classification of its graph. */
  datatype Reconciliation = Reconciliation(signature: Node -> string, input: MatchInput, run: Run)
  {
    /** Each stage delivered what it promises on the output of the stage before it. */
    ghost predicate Produced()
    {
      run.x.source.Valid() && run.x.target.Valid() && input.profile.Valid() && run.profile.Valid() &&
      IsIndex(run.x.source, run.x.target, signature, input.ev) &&
      input.IsGraph(run.x.graph) &&
      Aligns() && run.Classified()
    }

    ghost predicate Aligns()
    {
      run.x.Refers() && run.x.IsAlignment(run.alignment, run.ambS, run.ambT)
    }
  }

  /** Outputs of the stages on each other's outputs make up a run. */
  lemma StagesProduce(signature: Node -> string, x: MatchInput, input: AlignInput, profile: OperationProfile,
                      a: AlignmentResult, ambS: AmbiguousIndex, ambT: AmbiguousIndex, refs: Refs,
                      ops: seq<StructuralOperation>)
    requires input.source.Valid() && input.target.Valid() && x.profile.Valid() && profile.Valid()
    requires IsIndex(input.source, input.target, signature, x.ev) && x.IsGraph(input.graph)
    requires input.Refers() && input.IsAlignment(a, ambS, ambT)
    requires IsClassification(Context(input.source, input.target, input.graph, a, profile), refs, ops)
    ensures Reconciliation(signature, x, Run(input, profile, a, ambS, ambT, refs, ops)).Produced()
  {
  }

  lemma VerdictOverNodes(x: MatchInput, s: NodeRef, t: NodeRef)
    requires x.Verdict(s, t).Some?
    ensures s in x.ev.source && t in x.ev.target
  {
    if !x.AuthPair(s, t) { Phase2IsFree(x, s, t); }
  }

  lemma GraphRefers(source: Tree, target: Tree, signature: Node -> string, x: MatchInput, g: MatchGraph)
    requires IsIndex(source, target, signature, x.ev) && x.IsGraph(g)
    ensures forall s, t :: g.Pairs(s, t) ==> s in source.nodes && t in target.nodes
  {
    forall s, t | g.Pairs(s, t)
      ensures s in source.nodes && t in target.nodes
    {
      CandidateAt(x, g, s, t);
      VerdictOverNodes(x, s, t);
    }
  }

  /** What the stages produce satisfies the hypotheses of every guarantee. */
  lemma ProducedIsSound(z: Reconciliation)
    requires z.Produced()
    ensures z.run.Sound()
  {
    GraphIsOneToOne(z.input, z.run.x.graph);
  }

  /** In every produced run the confirmed pairs are those of identifiers and of clear scores. */
  lemma ProducedPairsIff(z: Reconciliation, s: NodeRef, t: NodeRef)
    requires z.Produced()
    ensures z.run.x.graph.Pairs(s, t) <==> ConfirmedById(z.input, s, t) || exists v :: ClearlyBest(z.input, s, t, v)
  {
    ConfirmedIff(z.input, z.run.x.graph, s, t);
  }

  lemma ConfidencesInRange(x: MatchInput, g: MatchGraph, c: MatchCandidate)
    requires x.IsGraph(g) && c in g.candidates
    ensures 0.0 <= c.confidence <= 1.0
  {
    assert x.Describes(c);
    VerdictOverNodes(x, c.source, c.target);
    ScoreIsSupportedFraction(x.ev.source[c.source], x.ev.target[c.target], x.profile);
  }

  /** Every operation the pipeline emits passes its constructor. */
  lemma PipelineOperationsAreWellFormed(z: Reconciliation, op: StructuralOperation)
    requires z.Produced() && op in z.run.ops
    ensures op.WellFormed()
  {
    ProducedIsSound(z);
    forall c | c in z.run.x.graph.candidates
      ensures 0.0 <= c.confidence <= 1.0
    {
      ConfidencesInRange(z.input, z.run.x.graph, c);
    }
    OperationsAreWellFormed(z.run, op);
  }

  lemma UncertainIffEdge(z: Reconciliation, n: NodeRef)
    requires z.Produced()
    ensures z.run.UncertainSource(n) <==> exists t :: z.input.Verdict(n, t) == Some(Ambiguous)
    ensures z.run.UncertainTarget(n) <==> exists s :: z.input.Verdict(s, n) == Some(Ambiguous)
  {
    var g := z.run.x.graph;
    forall s, t
      ensures g.Pairs(s, t) <==> z.input.Verdict(s, t) == Some(Confirmed)
      ensures g.AmbiguousEdge(s, t) <==> z.input.Verdict(s, t) == Some(Ambiguous)
    {
      CandidateAt(z.input, g, s, t);
    }
    UncertainIffUnconfirmedEdge(g, n);
    forall t, s2, t2 | z.input.Verdict(n, t) == Some(Ambiguous) && z.input.Verdict(s2, t2) == Some(Confirmed)
      ensures n != s2
    {
      AmbiguousIsUnconfirmed(z.input, n, t, s2, t2);
    }
    forall s, s2, t2 | z.input.Verdict(s, n) == Some(Ambiguous) && z.input.Verdict(s2, t2) == Some(Confirmed)
      ensures n != t2
    {
      AmbiguousIsUnconfirmed(z.input, s, n, s2, t2);
    }
  }

  lemma UncertainIffUnconfirmedEdge(g: MatchGraph, n: NodeRef)
    ensures var confirmed := set c | c in g.candidates && c.state == Confirmed :: c.source;
      n in (set c | c in g.candidates && c.state == Ambiguous && c.source !in confirmed :: c.source) <==>
      (exists t :: g.AmbiguousEdge(n, t)) && forall t :: !g.Pairs(n, t)
    ensures var confirmed := set c | c in g.candidates && c.state == Confirmed :: c.target;
      n in (set c | c in g.candidates && c.state == Ambiguous && c.target !in confirmed :: c.target) <==>
      (exists s :: g.AmbiguousEdge(s, n)) && forall s :: !g.Pairs(s, n)
  {
    forall c | c in g.candidates && c.state == Ambiguous
      ensures g.AmbiguousEdge(c.source, c.target)
    {
    }
    forall c | c in g.candidates && c.state == Confirmed
      ensures g.Pairs(c.source, c.target)
    {
    }
  }

  /**
   * The second barrier is redundant here: under a suppressing policy, no DELETE names the source and
   * no INSERT names the target of an ambiguous edge.
   */
  lemma AmbiguousNodesAreNeverAbsent(z: Reconciliation, s: NodeRef, t: NodeRef)
    requires z.Produced() && z.run.profile.presence != EmitAll && z.run.x.graph.AmbiguousEdge(s, t)
    ensures !z.run.Emits(DeleteId(s)) && !z.run.Emits(InsertId(t))
  {
    ProducedIsSound(z);
    CandidateAt(z.input, z.run.x.graph, s, t);
    UncertainIffEdge(z, s);
    UncertainIffEdge(z, t);
    NoPresenceClaimOnUncertainNodes(z.run, s);
    NoPresenceClaimOnUncertainNodes(z.run, t);
  }

  /**
   * Uncertainty can still surface as absence: a source that is viable in the similarity phase but
   * unreported by it (see `SilentSources`) becomes a DELETE exactly when its parent corresponds to a
   * node and the policy does not silence that region.
   */
  lemma SilentSourceIsDeletedIff(z: Reconciliation, s: NodeRef)
    requires z.Produced() && Delete in z.run.profile.enabled
    requires s in z.run.x.source.nodes && s != z.run.x.source.root
    requires z.input.Phase2().Viable(s) && !z.input.Phase2().Reported(s)
    ensures UnmatchedSource(z.run, s) && !z.run.UncertainSource(s)
    ensures z.run.x.source.nodes[s].parent.Some?
    ensures var sp := z.run.x.source.nodes[s].parent.value;
      z.run.Emits(DeleteId(s)) <==> exists tp :: z.run.x.Heads(sp, tp) && !Quiet(z.run, sp, tp)
  {
    ProducedIsSound(z);
    SilentIsUnlisted(z.input, s);
    forall t
      ensures !z.run.x.graph.Pairs(s, t)
    {
      CandidateAt(z.input, z.run.x.graph, s, t);
    }
    UncertainIffEdge(z, s);
    NonRootHasParent(z.run.x.source, s);
    UnmatchedIsDeletedIff(z.run, s);
    var sp := z.run.x.source.nodes[s].parent.value;
    forall tp
      ensures AloneUnder(z.run, s, tp) <==> z.run.x.Heads(sp, tp) && !Quiet(z.run, sp, tp)
    {
    }
  }

  /** In particular a silent child of the root is deleted, unless a whole region is silenced. */
  lemma SilentChildIsDeleted(z: Reconciliation, s: NodeRef)
    requires z.Produced() && Delete in z.run.profile.enabled && z.run.profile.presence != SuppressUnresolvedRegions
    requires s in z.run.x.source.nodes && s != z.run.x.source.root
    requires z.run.x.source.nodes[s].parent == Some(z.run.x.source.root)
    requires z.input.Phase2().Viable(s) && !z.input.Phase2().Reported(s)
    ensures z.run.Emits(DeleteId(s))
  {
    SilentSourceIsDeletedIff(z, s);
    assert !Quiet(z.run, z.run.x.source.root, z.run.x.target.root);
    assert z.run.x.Heads(z.run.x.source.root, z.run.x.target.root);
  }

  lemma EdgeIsNotDeleted(z: Reconciliation, s: NodeRef, t: NodeRef)
    requires z.Produced() && z.run.profile.presence != EmitAll && z.input.Phase2().Edge(s, t)
    ensures !z.run.Emits(DeleteId(s))
  {
    ProducedIsSound(z);
    Phase2IsFree(z.input, s, t);
    assert z.input.Verdict(s, t) == Some(Ambiguous);
    UncertainIffEdge(z, s);
    NoPresenceClaimOnUncertainNodes(z.run, s);
  }

  lemma SilentIsUnlisted(x: MatchInput, s: NodeRef)
    requires x.Phase2().Viable(s) && !x.Phase2().Reported(s)
    ensures forall t :: x.Verdict(s, t) != Some(Confirmed) && x.Verdict(s, t) != Some(Ambiguous)
  {
    var near :| x.Phase2().Near(s, near);
    assert s in x.FreeSources();
  }

  lemma WinnerIsPaired(z: Reconciliation, s: NodeRef, t: NodeRef)
    requires z.Produced() && z.input.Phase2().Wins(s, t)
    ensures z.run.x.graph.Pairs(s, t)
    ensures z.run.x.graph.ConfirmedConfidence(s, t) == z.input.Phase2().value(s, t)
  {
    var g := z.run.x.graph;
    Phase2IsFree(z.input, s, t);
    WinHasNoEdge(z.input, s, t);
    CandidateAt(z.input, g, s, t);
    FirstConfidenceFinds(g.candidates, s, t);
    var m :| m in g.candidates && m.state == Confirmed && m.source == s && m.target == t &&
      m.confidence == g.ConfirmedConfidence(s, t);
    assert z.input.Describes(m);
  }

  /** Without authoritative identifiers only plausible pairs are confirmed. */
  lemma PairIsPlausible(z: Reconciliation, s: NodeRef, t: NodeRef)
    requires z.Produced() && PersistentId !in z.input.profile.authoritative && z.run.x.graph.Pairs(s, t)
    ensures z.input.Phase2().Plausible(s, t)
  {
    CandidateAt(z.input, z.run.x.graph, s, t);
    Phase2IsFree(z.input, s, t);
  }

  /** So a node without a plausible source corresponds to nothing, unless it is the root. */
  lemma UnwantedHeadsNothing(z: Reconciliation, p: NodeRef)
    requires z.Produced() && PersistentId !in z.input.profile.authoritative && p != z.run.x.target.root
    requires forall sp :: !z.input.Phase2().Plausible(sp, p)
    ensures forall sp :: !z.run.x.Heads(sp, p)
  {
    forall sp
      ensures !z.run.x.Heads(sp, p)
    {
      if z.run.x.graph.Pairs(sp, p) { PairIsPlausible(z, sp, p); }
    }
  }
}
