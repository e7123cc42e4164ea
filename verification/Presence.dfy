/** What the localized report says about presence: when the second barrier acts, and what it misses. */
module Presence {
  import opened Options
  import opened Ordering
  import opened Trees
  import opened Profiles
  import opened Matches
  import opened Alignment
  import opened Operations
  import opened Diagnosis
  import opened Guarantees
  import opened Pipeline
  import opened Cascades
  import opened Localization
  import Matcher

  /** `x` interprets the result of run `r`; it reads the submitted trees, of which the run saw normalized copies. */
  ghost predicate Of(x: Interpretation, r: Run)
  {
    SameShape(x.source, r.x.source) && SameShape(x.locale, r.x.target) && x.graph == r.x.graph &&
    x.alignment == r.alignment && x.ops == r.ops
  }

  ghost predicate Says(fs: seq<Finding>, status: Status, source: Option<NodeRef>, locale: Option<NodeRef>)
  {
    exists f :: f in fs && f.status == status && f.source == source && f.locale == locale
  }

  // ---------------------------------------------------------------- where presence findings come from

  lemma DeleteKind(r: Run, op: StructuralOperation)
    requires r.Sound() && op in r.ops
    ensures op.kind == Delete <==> op.id.DeleteId?
    ensures op.kind == Insert <==> op.id.InsertId?
    ensures op.id.DeleteId? ==> op.sources == [op.id.node]
    ensures op.id.InsertId? ==> op.targets == [op.id.node]
  {
    EmittedByKind(r, op);
    if op.id.MatchedId? { MatchReportedIff(r, op, op.id.source, op.id.target); }
    if op.id.UpdateId? { MatchReportedIff(r, op, op.id.source, op.id.target); }
    if op.id.DeleteId? { DeleteReportedIff(r, op, op.id.node); }
    if op.id.InsertId? { InsertReportedIff(r, op, op.id.node); }
  }

  lemma FindingKind(x: Interpretation, op: StructuralOperation, f: Finding)
    requires PresenceFinding(x, op) == Some(f)
    ensures f.status == MissingInLocale ==>
      op.kind == Delete && op.sources != [] && f.source == Some(op.sources[0]) && f.locale == None
    ensures f.status == ExtraInLocale ==>
      op.kind == Insert && op.targets != [] && f.locale == Some(op.targets[0]) && f.source == None
  {
  }

  lemma PresenceFindings(x: Interpretation, r: Run, f: Finding)
    requires Of(x, r) && r.Sound()
    ensures f.status == MissingInLocale && f in PresencePart(x) ==>
      f.source.Some? && r.Emits(DeleteId(f.source.value)) && f.locale == None
    ensures f.status == ExtraInLocale && f in PresencePart(x) ==>
      f.locale.Some? && r.Emits(InsertId(f.locale.value)) && f.source == None
  {
    var find := (op: StructuralOperation) => PresenceFinding(x, op);
    Gathers(find, x.ops, f);
    if f in PresencePart(x) {
      var op :| op in x.ops && find(op) == Some(f);
      FindingKind(x, op, f);
      DeleteKind(r, op);
      if op.id.DeleteId? { assert r.Emits(DeleteId(op.id.node)); }
      if op.id.InsertId? { assert r.Emits(InsertId(op.id.node)); }
    }
  }

  lemma EmittedIsFound(x: Interpretation, r: Run, s: NodeRef)
    requires Of(x, r) && r.Sound() && r.Emits(DeleteId(s)) && !x.exempt(Delete, TypeOf(x.source, s))
    ensures Says(PresencePart(x), MissingInLocale, Some(s), None)
  {
    var op: StructuralOperation :| op in r.ops && op.id == DeleteId(s);
    DeleteKind(r, op);
    var find := (o: StructuralOperation) => PresenceFinding(x, o);
    var f := Finding(MissingInLocale, Some(s), None, [], [op.id]);
    assert find(op) == Some(f);
    Gathers(find, x.ops, f);
  }

  lemma OnlyPresencePart(x: Interpretation, moves: MoveIndex, refs: seq<NodeRef>, f: Finding)
    requires IsPresence(f.status)
    ensures f in RawFindings(x, moves, refs) <==> f in PresencePart(x)
  {
    NotInConfirmedPart(x, moves, f);
    NotInAmbiguousPart(x, refs, f);
    NotInReorderPart(x, f);
  }

  predicate IsPresence(status: Status)
  {
    status == MissingInLocale || status == ExtraInLocale || status == ExemptLocaleVariation
  }

  lemma NotInConfirmedPart(x: Interpretation, moves: MoveIndex, f: Finding)
    requires IsPresence(f.status)
    ensures f !in ConfirmedPart(x, moves)
  {
    Gathers((c: MatchCandidate) => ConfirmedFinding(x, moves, c), WithState(x.graph.candidates, Confirmed), f);
  }

  lemma NotInAmbiguousPart(x: Interpretation, refs: seq<NodeRef>, f: Finding)
    requires IsPresence(f.status)
    ensures f !in AmbiguousPart(x, refs)
  {
    Gathers((s: NodeRef) => AmbiguousFinding(x, s), refs, f);
  }

  lemma NotInReorderPart(x: Interpretation, f: Finding)
    requires IsPresence(f.status)
    ensures f !in ReorderPart(x)
  {
    Gathers(ReorderFinding, x.ops, f);
  }

  // ---------------------------------------------------------------- the barrier

  lemma HeldSourceIsUncertain(x: Interpretation, z: Reconciliation, n: NodeRef)
    requires z.Produced() && Of(x, z.run)
    ensures n in x.HeldSources() <==> z.run.UncertainSource(n)
  {
    EdgeIsUncertain(z, n);
    AmbiguousRefsAre(x, n);
    ProducedIsSound(z);
    HeldByRegion(x, z.run, n);
  }

  lemma HeldTargetIsUncertain(x: Interpretation, z: Reconciliation, n: NodeRef)
    requires z.Produced() && Of(x, z.run)
    ensures n in x.HeldTargets() <==> z.run.UncertainTarget(n)
  {
    EdgeIsUncertain(z, n);
    AmbiguousRefsAre(x, n);
    ProducedIsSound(z);
    HeldByRegion(x, z.run, n);
  }

  lemma HeldByRegion(x: Interpretation, r: Run, n: NodeRef)
    requires Of(x, r) && r.Sound()
    ensures n in x.HeldSources() && n !in x.AmbiguousRefs() ==> r.UncertainSource(n)
    ensures n in x.HeldTargets() && n !in (set c | c in x.Ambiguous() :: c.target) ==> r.UncertainTarget(n)
  {
    if n in x.HeldSources() && n !in x.AmbiguousRefs() {
      var g, p := HeldSourcePosition(x, n);
      UnresolvedIsUncertain(r, g, p);
    }
    if n in x.HeldTargets() && n !in (set c | c in x.Ambiguous() :: c.target) {
      var g, p := HeldTargetPosition(x, n);
      UnresolvedIsUncertain(r, g, p);
    }
  }

  lemma HeldSourcePosition(x: Interpretation, n: NodeRef) returns (g: Region, p: AlignedPair)
    requires n in x.HeldSources() && n !in x.AmbiguousRefs()
    ensures g in x.alignment.regions && p in g.pairs && p.kind == UnresolvedSource && p.source == Some(n)
  {
    g, p :| g in x.alignment.regions && p in g.pairs && p.kind == UnresolvedSource && p.source == Some(n);
  }

  lemma HeldTargetPosition(x: Interpretation, n: NodeRef) returns (g: Region, p: AlignedPair)
    requires n in x.HeldTargets() && n !in (set c | c in x.Ambiguous() :: c.target)
    ensures g in x.alignment.regions && p in g.pairs && p.kind == UnresolvedTarget && p.target == Some(n)
  {
    g, p :| g in x.alignment.regions && p in g.pairs && p.kind == UnresolvedTarget && p.target == Some(n);
  }

  lemma AmbiguousRefsAre(x: Interpretation, n: NodeRef)
    ensures n in x.AmbiguousRefs() <==> exists t :: x.graph.AmbiguousEdge(n, t)
    ensures n in (set c | c in x.Ambiguous() :: c.target) <==> exists s :: x.graph.AmbiguousEdge(s, n)
  {
    if n in x.AmbiguousRefs() {
      var c :| c in x.Ambiguous() && c.source == n;
      assert x.graph.AmbiguousEdge(n, c.target);
    }
    if n in (set c | c in x.Ambiguous() :: c.target) {
      var c :| c in x.Ambiguous() && c.target == n;
      assert x.graph.AmbiguousEdge(c.source, n);
    }
  }

  lemma HeldIsUncertain(x: Interpretation, z: Reconciliation, n: NodeRef)
    requires z.Produced() && Of(x, z.run)
    ensures n in x.HeldSources() <==> z.run.UncertainSource(n)
    ensures n in x.HeldTargets() <==> z.run.UncertainTarget(n)
  {
    HeldSourceIsUncertain(x, z, n);
    HeldTargetIsUncertain(x, z, n);
  }

  lemma EdgeIsUncertain(z: Reconciliation, n: NodeRef)
    requires z.Produced()
    ensures (exists t :: z.run.x.graph.AmbiguousEdge(n, t)) <==> z.run.UncertainSource(n)
    ensures (exists s :: z.run.x.graph.AmbiguousEdge(s, n)) <==> z.run.UncertainTarget(n)
  {
    UncertainIffEdge(z, n);
    forall s, t
      ensures z.run.x.graph.AmbiguousEdge(s, t) <==> z.input.Verdict(s, t) == Some(MatchState.Ambiguous)
    {
      Matcher.CandidateAt(z.input, z.run.x.graph, s, t);
    }
  }

  lemma UnresolvedIsUncertain(r: Run, g: Region, p: AlignedPair)
    requires r.Sound() && g in r.alignment.regions && p in g.pairs
    ensures p.kind == UnresolvedSource && p.source.Some? ==> r.UncertainSource(p.source.value)
    ensures p.kind == UnresolvedTarget && p.target.Some? ==> r.UncertainTarget(p.target.value)
  {
    var i :| 0 <= i < |r.alignment.regions| && r.alignment.regions[i] == g;
    AlignedShape(r, i, p);
    if p.source.Some? { UncertainIffIndexed(r, p.source.value); }
    if p.target.Some? { UncertainIffIndexed(r, p.target.value); }
  }

  /** Under either suppressing policy the localization filter returns its input unchanged. */
  lemma BarrierIsRedundant(x: Interpretation, z: Reconciliation, moves: MoveIndex, refs: seq<NodeRef>)
    requires z.Produced() && Of(x, z.run) && z.run.profile.presence != EmitAll
    ensures var raw := Numbered(RawFindings(x, moves, refs));
      Kept(x, raw, |raw|) == raw
  {
    ProducedIsSound(z);
    var raw := Numbered(RawFindings(x, moves, refs));
    forall i | 0 <= i < |raw|
      ensures !Contradicts(x, raw[i].finding)
    {
      assert raw[i].finding in RawFindings(x, moves, refs);
      RawDoesNotContradict(x, z, moves, refs, raw[i].finding);
    }
    NothingDropped(x, raw, |raw|);
    assert raw[..|raw|] == raw;
  }

  lemma RawDoesNotContradict(x: Interpretation, z: Reconciliation, moves: MoveIndex, refs: seq<NodeRef>, f: Finding)
    requires z.Produced() && Of(x, z.run) && z.run.profile.presence != EmitAll && f in RawFindings(x, moves, refs)
    ensures !Contradicts(x, f)
  {
    ProducedIsSound(z);
    if f.status == MissingInLocale || f.status == ExtraInLocale {
      OnlyPresencePart(x, moves, refs, f);
      PresenceFindings(x, z.run, f);
      if f.source.Some? {
        HeldIsUncertain(x, z, f.source.value);
        NoPresenceClaimOnUncertainNodes(z.run, f.source.value);
      }
      if f.locale.Some? {
        HeldIsUncertain(x, z, f.locale.value);
        NoPresenceClaimOnUncertainNodes(z.run, f.locale.value);
      }
    }
  }

  /** Under every policy, EMIT_ALL included, no kept issue calls an ambiguous node missing or extra. */
  lemma NoKeptContradiction(x: Interpretation, z: Reconciliation, raw: seq<Issue>, i: Issue)
    requires z.Produced() && Of(x, z.run) && i in Kept(x, raw, |raw|)
    ensures i.finding.status == MissingInLocale && i.finding.source.Some? ==>
      !z.run.UncertainSource(i.finding.source.value)
    ensures i.finding.status == ExtraInLocale && i.finding.locale.Some? ==>
      !z.run.UncertainTarget(i.finding.locale.value)
  {
    KeptAre(x, raw, |raw|, i);
    if i.finding.source.Some? { HeldIsUncertain(x, z, i.finding.source.value); }
    if i.finding.locale.Some? { HeldIsUncertain(x, z, i.finding.locale.value); }
  }

  lemma {:induction false} GroupIdsAre(cs: seq<MatchCandidate>, s: NodeRef, k: nat, id: MatchId)
    requires k <= |cs|
    ensures id in GroupIds(cs, s, k) <==> exists c :: c in cs[..k] && c.source == s && c.Id() == id
  {
    if k > 0 {
      GroupIdsAre(cs, s, k - 1, id);
      assert cs[..k] == cs[..k - 1] + [cs[k - 1]];
    }
  }

  /** An ambiguity issue that names the edge. */
  ghost predicate ReportsEdge(fs: seq<Finding>, s: NodeRef, t: NodeRef)
  {
    exists f :: f in fs && f.status == AmbiguousMatch && f.source == Some(s) && MatchId(s, t) in f.matchIds
  }

  lemma EdgeIsReported(x: Interpretation, moves: MoveIndex, refs: seq<NodeRef>, s: NodeRef, t: NodeRef)
    requires Sorts(refs, x.AmbiguousRefs()) && x.graph.AmbiguousEdge(s, t)
    ensures ReportsEdge(RawFindings(x, moves, refs), s, t)
  {
    var c :| c in x.graph.candidates && c.state == MatchState.Ambiguous && c.source == s && c.target == t;
    var cs := x.Ambiguous();
    assert c in cs && s in refs;
    var find := (n: NodeRef) => AmbiguousFinding(x, n);
    var f := find(s).value;
    Gathers(find, refs, f);
    GroupIdsAre(cs, s, |cs|, MatchId(s, t));
    assert cs[..|cs|] == cs;
    assert f in AmbiguousPart(x, refs);
  }

  /** What the barrier drops is still on the list as an ambiguity that names the node. */
  lemma DroppedIsStillReported(x: Interpretation, z: Reconciliation, moves: MoveIndex, refs: seq<NodeRef>, f: Finding)
    requires z.Produced() && Of(x, z.run) && Sorts(refs, x.AmbiguousRefs()) && Contradicts(x, f)
    ensures f.status == MissingInLocale ==> exists t :: ReportsEdge(RawFindings(x, moves, refs), f.source.value, t)
    ensures f.status == ExtraInLocale ==> exists s :: ReportsEdge(RawFindings(x, moves, refs), s, f.locale.value)
  {
    if f.status == MissingInLocale {
      HeldIsUncertain(x, z, f.source.value);
      EdgeIsUncertain(z, f.source.value);
      var t :| z.run.x.graph.AmbiguousEdge(f.source.value, t);
      EdgeIsReported(x, moves, refs, f.source.value, t);
    } else {
      HeldIsUncertain(x, z, f.locale.value);
      EdgeIsUncertain(z, f.locale.value);
      var s :| z.run.x.graph.AmbiguousEdge(s, f.locale.value);
      EdgeIsReported(x, moves, refs, s, f.locale.value);
    }
  }

  // ---------------------------------------------------------------- what neither barrier sees

  /** `s` is reported as corresponding to `t`. */
  ghost predicate ReportedAsPaired(x: Interpretation, moves: MoveIndex, s: NodeRef, t: NodeRef)
  {
    exists f :: f in ConfirmedPart(x, moves) && f.source == Some(s) && f.locale == Some(t)
  }

  lemma PairIsReported(x: Interpretation, moves: MoveIndex, r: Run, s: NodeRef, t: NodeRef)
    requires Of(x, r) && r.x.graph.Pairs(s, t) && s in r.x.source.nodes && r.x.source.nodes[s].parent.Some?
    ensures ReportedAsPaired(x, moves, s, t)
  {
    var c :| c in x.graph.candidates && c.state == Confirmed && c.source == s && c.target == t;
    var find := (d: MatchCandidate) => ConfirmedFinding(x, moves, d);
    var f := find(c).value;
    Gathers(find, WithState(x.graph.candidates, Confirmed), f);
  }

  /**
   * One node can be reported as corresponding and as missing at once. It happens to a confirmed
   * non-root node exactly when the pair is no confident move, the old parent corresponds to a node that
   * is not the new parent and is not silenced, and no policy rule exempts the node. With settled roots
   * that leaves the moves below the threshold.
   */
  lemma PairedAndMissingIff(x: Interpretation, r: Run, moves: MoveIndex, refs: seq<NodeRef>, s: NodeRef, t: NodeRef)
    requires Of(x, r) && r.Sound() && r.profile.AllEnabled()
    requires r.x.graph.Pairs(s, t) && s != r.x.source.root
    ensures ReportedAsPaired(x, moves, s, t)
    ensures Says(RawFindings(x, moves, refs), MissingInLocale, Some(s), None) <==>
      !(r.Crosses(s, t) && r.Confident(s, t)) && !x.exempt(Delete, TypeOf(x.source, s)) &&
      exists tp :: AloneUnder(r, s, tp)
    ensures r.RootsSettled() ==>
      (Says(RawFindings(x, moves, refs), MissingInLocale, Some(s), None) ==> r.Crosses(s, t) && !r.Confident(s, t))
  {
    NonRootHasParent(r.x.source, s);
    PairIsReported(x, moves, r, s, t);
    PairedIsDeletedIff(r, s, t);
    MissingIff(x, r, moves, refs, s);
    if r.RootsSettled() { EveryMatchHasOneDiagnosis(r, s, t); }
  }

  lemma MissingIff(x: Interpretation, r: Run, moves: MoveIndex, refs: seq<NodeRef>, s: NodeRef)
    requires Of(x, r) && r.Sound()
    ensures Says(RawFindings(x, moves, refs), MissingInLocale, Some(s), None) <==>
      r.Emits(DeleteId(s)) && !x.exempt(Delete, TypeOf(x.source, s))
  {
    if r.Emits(DeleteId(s)) && !x.exempt(Delete, TypeOf(x.source, s)) {
      EmittedIsFound(x, r, s);
      var f :| f in PresencePart(x) && f.status == MissingInLocale && f.source == Some(s) && f.locale == None;
      OnlyPresencePart(x, moves, refs, f);
    }
    if f :| f in RawFindings(x, moves, refs) && f.status == MissingInLocale && f.source == Some(s) && f.locale == None {
      OnlyPresencePart(x, moves, refs, f);
      PresenceFindings(x, r, f);
      MissingIsNotExempt(x, f);
    }
  }

  lemma MissingIsNotExempt(x: Interpretation, f: Finding)
    requires f in PresencePart(x) && f.status == MissingInLocale && f.source.Some?
    ensures !x.exempt(Delete, TypeOf(x.source, f.source.value))
  {
    var find := (op: StructuralOperation) => PresenceFinding(x, op);
    Gathers(find, x.ops, f);
  }
}
