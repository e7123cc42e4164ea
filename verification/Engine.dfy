/** The reconciliation engine: fail-fast checks, then the stages in their required order. */
module Engine {
  import opened Options
  import opened Ordering
  import opened Trees
  import opened TreeValidator
  import opened Profiles
  import opened Evidence
  import opened Matches
  import opened Alignment
  import opened Aligner
  import opened Operations
  import opened Classification
  import opened Diagnosis
  import opened Pipeline
  import opened Twins
  import opened SingleEdit
  import opened Suppression
  import opened Cascades
  import opened Walks
  import opened Normalization
  import opened Localization
  import opened Presence
  import opened Matcher

  datatype ResourceLimits = ResourceLimits(maxNodeCount: Option<nat>, maxTreeDepth: Option<nat>)

  datatype Command = Command(
    source: Tree,
    target: Tree,
    normalization: NormalizationProfile,
    matching: MatchingProfile,
    alignment: AlignmentProfile,
    operation: OperationProfile,
    suppression: SuppressionProfile,
    limits: ResourceLimits,
    incompleteOnLimit: bool)
  {
    /** What the record constructors already enforce. */
    ghost predicate Constructed()
    {
      source.Constructed() && target.Constructed() && normalization.Valid() && matching.Valid() && operation.Valid()
    }

    /** Suppression rules react to enabled operations, and weighted features have a priority. */
    predicate ProfilesAgree()
    {
      (forall rule :: rule in suppression.rules ==> rule.rootOperation in operation.enabled) &&
      forall fw :: fw in matching.featureWeights ==> fw.feature in matching.priority
    }

    ghost predicate Exceeds()
    {
      (limits.maxNodeCount.Some? && |source.nodes| + |target.nodes| > limits.maxNodeCount.value) ||
      (limits.maxTreeDepth.Some? &&
        exists p :: (source.ChildPath(p) || target.ChildPath(p)) && |p| > limits.maxTreeDepth.value)
    }

    /** All checks pass. */
    ghost predicate Admitted()
    {
      source.RootedTree() && target.RootedTree() && ProfilesAgree() && !Exceeds()
    }

    function Normal(lang: Language, t: Tree): Tree
    {
      Normalizer(normalization, lang.sp).TreeOf(t)
    }

    /** What the matcher receives. */
    ghost function Input(lang: Language): MatchInput
    {
      MatchInput(IndexOf(Normal(lang, source), Normal(lang, target), lang.signature), matching)
    }

    ghost predicate RegionIdsRepeat(lang: Language)
    {
      ParentsRepeat(Normal(lang, source), Normal(lang, target), Input(lang))
    }
  }

  /** `str.isspace` and the rendering of signatures, which the engine takes from the language. */
  datatype Language = Language(sp: Spaces, signature: Node -> string)

  /** The first four are the engine's own errors, the last two come out of record constructors. */
  datatype EngineError =
    | InvalidSource
    | InvalidTarget
    | InvalidProfile
    | LimitExceeded
    | MatchWithoutEvidence(pair: MatchId)
    | RepeatedRegionId

  datatype Reconciled =
    | Incomplete
    | Complete(graph: MatchGraph, alignment: AlignmentResult, operations: seq<StructuralOperation>,
               suppression: SuppressionResult)

  // ---------------------------------------------------------------- the checks

  method ValidateProfiles(c: Command) returns (valid: bool)
    ensures valid <==> c.ProfilesAgree()
  {
    valid := true;
    for i := 0 to |c.suppression.rules|
      invariant valid <==> forall k :: 0 <= k < i ==> c.suppression.rules[k].rootOperation in c.operation.enabled
    {
      if c.suppression.rules[i].rootOperation !in c.operation.enabled {
        valid := false;
      }
    }
    ghost var rulesAgree := valid;
    for i := 0 to |c.matching.featureWeights|
      invariant valid <==>
        rulesAgree && forall k :: 0 <= k < i ==> c.matching.featureWeights[k].feature in c.matching.priority
    {
      if c.matching.featureWeights[i].feature !in c.matching.priority {
        valid := false;
      }
    }
  }

  /** Node count and depth, before the expensive stages run. */
  method CheckPreLimits(c: Command) returns (within: bool)
    requires c.source.Valid() && c.target.Valid()
    ensures within <==> !c.Exceeds()
  {
    var total := |c.source.nodes| + |c.target.nodes|;
    if c.limits.maxNodeCount.Some? && total > c.limits.maxNodeCount.value {
      return false;
    }
    if c.limits.maxTreeDepth.Some? {
      var s := TreeDepth(c.source);
      var t := TreeDepth(c.target);
      var deepest := if s < t then t else s;
      DepthLimit(c.source, s, c.limits.maxTreeDepth.value);
      DepthLimit(c.target, t, c.limits.maxTreeDepth.value);
      return deepest <= c.limits.maxTreeDepth.value;
    }
    return true;
  }

  lemma DepthLimit(t: Tree, depth: nat, limit: nat)
    requires IsDepth(t, depth)
    ensures depth > limit <==> exists p :: t.ChildPath(p) && |p| > limit
  {
  }

  method IsValid(t: Tree) returns (valid: bool)
    requires t.Constructed()
    ensures valid <==> t.RootedTree()
    ensures valid ==> t.Valid()
  {
    var ok, violations := ValidateTreeResult(t);
    ghost var refs :| Sorts(refs, t.nodes.Keys) && violations == TreeValidator.Reports(t, refs);
    AcceptsExactlyRootedTrees(t, refs);
    valid := ok;
  }

  // ---------------------------------------------------------------- the pipeline

  /**
   * `z` and `fired` record how the result came about from the normalized trees; the records inside it
   * have passed their constructors.
   */
  ghost predicate Delivered(c: Command, lang: Language, r: Reconciled, z: Reconciliation, fired: seq<Firing>)
  {
    r.Complete? && z.Produced() && z.signature == lang.signature &&
    z.run.x == AlignInput(c.Normal(lang, c.source), c.Normal(lang, c.target), r.graph, c.alignment) &&
    z.run.profile == c.operation && z.input == c.Input(lang) &&
    z.run.alignment == r.alignment && z.run.ops == r.operations &&
    (forall m :: m in r.graph.candidates ==> m.WellFormed()) && r.alignment.WellFormed() &&
    Over(z.run, c.suppression.rules).IsSuppression(r.suppression, fired)
  }

  datatype Diagnosed = Diagnosed(graph: MatchGraph, alignment: AlignmentResult, operations: seq<StructuralOperation>)

  /** `z` is a run on these inputs with this outcome. */
  ghost predicate Diagnoses(source: Tree, target: Tree, c: Command, lang: Language, d: Diagnosed, z: Reconciliation)
  {
    z.Produced() && z.signature == lang.signature &&
    z.input == MatchInput(IndexOf(source, target, lang.signature), c.matching) &&
    z.run.x == AlignInput(source, target, d.graph, c.alignment) && z.run.profile == c.operation &&
    z.run.alignment == d.alignment && z.run.ops == d.operations &&
    (forall m :: m in d.graph.candidates ==> m.WellFormed()) && d.alignment.WellFormed()
  }

  /** Two pairs of corresponding parents share the string form of their region id. */
  ghost predicate ParentsRepeat(source: Tree, target: Tree, x: MatchInput)
  {
    exists a: MatchId, b: MatchId {:trigger Arrow(a), Arrow(b)} ::
      a != b && Arrow(a) == Arrow(b) && Corresponding(source, target, x, a) && Corresponding(source, target, x, b)
  }

  ghost predicate Corresponding(source: Tree, target: Tree, x: MatchInput, id: MatchId)
  {
    id == MatchId(source.root, target.root) || x.Verdict(id.source, id.target) == Some(Confirmed)
  }

  lemma CollidesIffRepeat(x: AlignInput, m: MatchInput)
    requires m.IsGraph(x.graph)
    ensures x.Collides() <==> ParentsRepeat(x.source, x.target, m)
  {
    forall id: MatchId
      ensures x.Heads(id.source, id.target) <==> Corresponding(x.source, x.target, m, id)
    {
      CandidateAt(m, x.graph, id.source, id.target);
    }
  }

  /** The stages' outputs over a match graph make up a run. */
  lemma StagesDiagnose(source: Tree, target: Tree, c: Command, lang: Language, d: Diagnosed, x: MatchInput,
                       ambS: AmbiguousIndex, ambT: AmbiguousIndex, refs: Refs) returns (z: Reconciliation)
    requires source.Valid() && target.Valid() && c.matching.Valid() && c.operation.Valid()
    requires x == MatchInput(IndexOf(source, target, lang.signature), c.matching) && x.IsGraph(d.graph)
    requires forall m :: m in d.graph.candidates ==> m.WellFormed()
    requires AlignInput(source, target, d.graph, c.alignment).Refers() && d.alignment.WellFormed()
    requires AlignInput(source, target, d.graph, c.alignment).IsAlignment(d.alignment, ambS, ambT)
    requires IsClassification(Context(source, target, d.graph, d.alignment, c.operation), refs, d.operations)
    ensures Diagnoses(source, target, c, lang, d, z)
  {
    ValidResolves(source);
    ValidResolves(target);
    IndexIsUnique(source, target, lang.signature, x.ev);
    var input := AlignInput(source, target, d.graph, c.alignment);
    z := Reconciliation(lang.signature, x, Run(input, c.operation, d.alignment, ambS, ambT, refs, d.operations));
    StagesProduce(lang.signature, x, input, c.operation, d.alignment, ambS, ambT, refs, d.operations);
  }

  lemma GraphFits(source: Tree, target: Tree, graph: MatchGraph, c: Command, lang: Language, x: MatchInput)
    requires source.Valid() && target.Valid()
    requires x == MatchInput(IndexOf(source, target, lang.signature), c.matching) && x.IsGraph(graph)
    ensures AlignInput(source, target, graph, c.alignment).Refers()
    ensures AlignInput(source, target, graph, c.alignment).Collides() <==> ParentsRepeat(source, target, x)
  {
    ValidResolves(source);
    ValidResolves(target);
    IndexIsUnique(source, target, lang.signature, x.ev);
    GraphRefers(source, target, lang.signature, x, graph);
    CollidesIffRepeat(AlignInput(source, target, graph, c.alignment), x);
  }

  /** Alignment and classification over a match graph. */
  method DiagnoseGraph(source: Tree, target: Tree, graph: MatchGraph, c: Command, lang: Language, ghost x: MatchInput)
    returns (r: Result<Diagnosed, EngineError>, ghost z: Option<Reconciliation>)
    requires source.Valid() && target.Valid() && c.matching.Valid() && c.operation.Valid()
    requires x == MatchInput(IndexOf(source, target, lang.signature), c.matching)
    requires x.IsGraph(graph) && forall m :: m in graph.candidates ==> m.WellFormed()
    ensures r == Err(RepeatedRegionId) <==> ParentsRepeat(source, target, x)
    ensures r.Ok? <==> !ParentsRepeat(source, target, x)
    ensures r.Ok? ==> z.Some? && Diagnoses(source, target, c, lang, r.value, z.value)
  {
    GraphFits(source, target, graph, c, lang, x);
    ghost var ambS, ambT;
    var aligned;
    aligned, ambS, ambT := Align(AlignInput(source, target, graph, c.alignment));
    if aligned.Err? {
      return Err(RepeatedRegionId), None;
    }
    var operations, refs := Classify(Context(source, target, graph, aligned.value, c.operation));
    var d := Diagnosed(graph, aligned.value, operations);
    ghost var run := StagesDiagnose(source, target, c, lang, d, x, ambS, ambT, refs);
    return Ok(d), Some(run);
  }

  /** Evidence, matching, alignment and classification of two valid trees. */
  method Diagnose(source: Tree, target: Tree, c: Command, lang: Language)
    returns (r: Result<Diagnosed, EngineError>, ghost z: Option<Reconciliation>)
    requires source.Valid() && target.Valid() && c.matching.Valid() && c.operation.Valid()
    ensures var x := MatchInput(IndexOf(source, target, lang.signature), c.matching);
      (r.Err? && r.error.MatchWithoutEvidence? <==> x.Raises()) &&
      (r.Err? && r.error.MatchWithoutEvidence? ==> x.Baseless(r.error.pair.source, r.error.pair.target)) &&
      (r == Err(RepeatedRegionId) <==> !x.Raises() && ParentsRepeat(source, target, x)) &&
      (r.Ok? <==> !x.Raises() && !ParentsRepeat(source, target, x))
    ensures r.Ok? ==> z.Some? && Diagnoses(source, target, c, lang, r.value, z.value)
  {
    ValidResolves(source);
    ValidResolves(target);
    var evidence := Extract(source, target, lang.signature);
    IndexIsUnique(source, target, lang.signature, evidence);
    var matched := Matcher.Match(evidence, c.matching);
    if matched.Err? {
      return Err(MatchWithoutEvidence(matched.error)), None;
    }
    r, z := DiagnoseGraph(source, target, matched.value, c, lang, MatchInput(evidence, c.matching));
  }

  /** Everything after the checks, on valid trees. */
  method RunStages(c: Command, lang: Language)
    returns (r: Result<Reconciled, EngineError>, ghost z: Option<Reconciliation>, ghost fired: seq<Firing>)
    requires c.Constructed() && c.source.Valid() && c.target.Valid()
    ensures r.Err? && r.error.MatchWithoutEvidence? <==> c.Input(lang).Raises()
    ensures r.Err? && r.error.MatchWithoutEvidence? ==> c.Input(lang).Baseless(r.error.pair.source, r.error.pair.target)
    ensures r == Err(RepeatedRegionId) <==> !c.Input(lang).Raises() && c.RegionIdsRepeat(lang)
    ensures r.Ok? <==> !c.Input(lang).Raises() && !c.RegionIdsRepeat(lang)
    ensures r.Ok? ==> z.Some? && Delivered(c, lang, r.value, z.value, fired)
  {
    fired := [];
    var normalizer := Normalizer(c.normalization, lang.sp);
    var source, sourceTrace := Normalize(normalizer, c.source);
    var target, targetTrace := Normalize(normalizer, c.target);
    NormalizedIsValid(normalizer, c.source);
    NormalizedIsValid(normalizer, c.target);
    var d;
    d, z := Diagnose(source, target, c, lang);
    if d.Err? {
      return Err(d.error), None, [];
    }
    ProducedIsSound(z.value);
    RunRefers(z.value.run, c.suppression.rules);
    var suppression;
    suppression, fired := Suppress(Suppressing(source, d.value.alignment, d.value.operations, c.suppression.rules));
    r := Ok(Complete(d.value.graph, d.value.alignment, d.value.operations, suppression));
  }

  /** The interpretation of a delivered result; it reads the submitted trees, the stages saw normalized ones. */
  ghost predicate Interprets(x: Interpretation, c: Command, r: Reconciled)
    requires r.Complete?
  {
    x.source == c.source && x.locale == c.target &&
    x.graph == r.graph && x.alignment == r.alignment && x.ops == r.operations
  }

  /**
   * From a command to its issue list: a source node is found missing exactly for a DELETE in the result
   * that no rule exempts, and under a suppressing policy every finding is kept.
   */
  lemma DeliveredFindings(c: Command, lang: Language, r: Reconciled, z: Reconciliation, fired: seq<Firing>,
                          x: Interpretation, moves: MoveIndex, refs: seq<NodeRef>, s: NodeRef)
    requires Delivered(c, lang, r, z, fired) && Interprets(x, c, r)
    ensures Says(RawFindings(x, moves, refs), MissingInLocale, Some(s), None) <==>
      (exists op :: op in r.operations && op.id == DeleteId(s)) && !x.exempt(Delete, TypeOf(c.source, s))
    ensures c.operation.presence != EmitAll ==>
      var raw := Numbered(RawFindings(x, moves, refs));
      Kept(x, raw, |raw|) == raw
  {
    NormalizedKeepsShape(Normalizer(c.normalization, lang.sp), c.source);
    NormalizedKeepsShape(Normalizer(c.normalization, lang.sp), c.target);
    assert Of(x, z.run);
    ProducedIsSound(z);
    MissingIff(x, z.run, moves, refs, s);
    if c.operation.presence != EmitAll { BarrierIsRedundant(x, z, moves, refs); }
  }

  lemma ValidResolves(t: Tree)
    requires t.Valid()
    ensures ChildrenResolve(t)
  {
    forall n, child | n in t.nodes && child in t.nodes[n].children
      ensures child in t.nodes
    {
      assert t.LinksAt(n);
    }
  }

  /**
   * `reconcile`: the first failing check decides. After the checks a record constructor can still
   * raise, for a match without evidence or a repeated region id; otherwise every stage delivers.
   */
  method Reconcile(c: Command, lang: Language)
    returns (r: Result<Reconciled, EngineError>, ghost z: Option<Reconciliation>, ghost fired: seq<Firing>)
    requires c.Constructed()
    ensures r == Err(InvalidSource) <==> !c.source.RootedTree()
    ensures r == Err(InvalidTarget) <==> c.source.RootedTree() && !c.target.RootedTree()
    ensures r == Err(InvalidProfile) <==> c.source.RootedTree() && c.target.RootedTree() && !c.ProfilesAgree()
    ensures r == Err(LimitExceeded) || r == Ok(Incomplete) <==>
      c.source.RootedTree() && c.target.RootedTree() && c.ProfilesAgree() && c.Exceeds()
    ensures r == Ok(Incomplete) ==> c.incompleteOnLimit
    ensures r == Err(LimitExceeded) ==> !c.incompleteOnLimit
    ensures r.Err? && r.error.MatchWithoutEvidence? <==> c.Admitted() && c.Input(lang).Raises()
    ensures r.Err? && r.error.MatchWithoutEvidence? ==> c.Input(lang).Baseless(r.error.pair.source, r.error.pair.target)
    ensures r == Err(RepeatedRegionId) <==> c.Admitted() && !c.Input(lang).Raises() && c.RegionIdsRepeat(lang)
    ensures r.Ok? && r.value.Complete? <==> c.Admitted() && !c.Input(lang).Raises() && !c.RegionIdsRepeat(lang)
    ensures r.Ok? && r.value.Complete? ==> z.Some? && Delivered(c, lang, r.value, z.value, fired)
  {
    z, fired := None, [];
    var sourceValid := IsValid(c.source);
    if !sourceValid {
      return Err(InvalidSource), z, fired;
    }
    var targetValid := IsValid(c.target);
    if !targetValid {
      return Err(InvalidTarget), z, fired;
    }
    var profilesValid := ValidateProfiles(c);
    if !profilesValid {
      return Err(InvalidProfile), z, fired;
    }
    var within := CheckPreLimits(c);
    if !within {
      return if c.incompleteOnLimit then Ok(Incomplete) else Err(LimitExceeded), z, fired;
    }
    r, z, fired := RunStages(c, lang);
  }

  /**
   * With positive identifier weight, a positive probable threshold and no arrow in a source handle no
   * record constructor raises.
   */
  lemma WeightedEngineDelivers(c: Command, lang: Language)
    requires c.Constructed() && c.source.Valid() && c.target.Valid()
    requires c.matching.WeightFor(PersistentId) > 0.0 && c.matching.probableThreshold > 0.0
    requires forall n :: n in c.source.nodes ==> !HasArrow(n)
    ensures !c.Input(lang).Raises() && !c.RegionIdsRepeat(lang)
  {
    WeightedMatcherReturns(c.Input(lang));
    var source, target := c.Normal(lang, c.source), c.Normal(lang, c.target);
    forall id | Corresponding(source, target, c.Input(lang), id)
      ensures id.source in c.source.nodes
    {
      if c.Input(lang).Verdict(id.source, id.target).Some? { VerdictOverNodes(c.Input(lang), id.source, id.target); }
    }
    forall a: MatchId, b: MatchId | Corresponding(source, target, c.Input(lang), a) &&
      Corresponding(source, target, c.Input(lang), b) && Arrow(a) == Arrow(b)
      ensures a == b
    {
      ArrowInjective(a, b);
    }
  }

  // ---------------------------------------------------------------- one edit, end to end

  /** Normalization leaves the identifiers of the tree alone. */
  ghost predicate KeepsIds(n: Normalizer, t: Tree)
  {
    forall r :: r in t.nodes ==> IdSafe(n, t.nodes[r])
  }

  lemma SameIdKept(n: Normalizer, a: Tree, b: Tree, s: NodeRef, t: NodeRef)
    requires KeepsIds(n, a) && KeepsIds(n, b)
    ensures SameId(n.TreeOf(a), n.TreeOf(b), s, t) <==> SameId(a, b, s, t)
  {
    if s in a.nodes { IdentityIsKept(n, a.nodes[s]); }
    if t in b.nodes { IdentityIsKept(n, b.nodes[t]); }
  }

  lemma IdentifiedKept(n: Normalizer, a: Tree, b: Tree)
    requires KeepsIds(n, a) && KeepsIds(n, b) && Identified(a, b)
    ensures Identified(n.TreeOf(a), n.TreeOf(b))
  {
    forall s, t
      ensures SameId(n.TreeOf(a), n.TreeOf(b), s, t) <==> SameId(a, b, s, t)
    {
      SameIdKept(n, a, b, s, t);
    }
    forall s | s in a.nodes
      ensures PersistentIdOf(n.TreeOf(a).nodes[s]) == PersistentIdOf(a.nodes[s])
    {
      IdentityIsKept(n, a.nodes[s]);
    }
  }

  lemma EmbedsKept(n: Normalizer, a: Tree, b: Tree, m: Renaming)
    requires KeepsIds(n, a) && KeepsIds(n, b) && Embeds(a, b, m)
    ensures Embeds(n.TreeOf(a), n.TreeOf(b), m)
  {
    forall s, t
      ensures Twin(n.TreeOf(a), n.TreeOf(b), s, t) <==> Twin(a, b, s, t)
    {
      SameIdKept(n, a, b, s, t);
    }
  }

  lemma SameChildrenKept(n: Normalizer, a: Tree, b: Tree, m: Renaming, r: NodeRef)
    requires SameChildren(a, b, m, r)
    ensures SameChildren(n.TreeOf(a), n.TreeOf(b), m, r)
  {
  }

  lemma GraftedKept(n: Normalizer, a: Tree, b: Tree, m: Renaming, p: NodeRef, k: nat, c: NodeRef)
    requires KeepsIds(n, a) && KeepsIds(n, b) && Grafted(a, b, m, p, k, c)
    ensures Grafted(n.TreeOf(a), n.TreeOf(b), m, p, k, c)
  {
    EmbedsKept(n, a, b, m);
    forall r | r in a.nodes && r != p
      ensures SameChildren(n.TreeOf(a), n.TreeOf(b), m, r)
    {
      SameChildrenKept(n, a, b, m, r);
    }
  }

  lemma RelocatedKept(n: Normalizer, a: Tree, b: Tree, m: Renaming, p: NodeRef, j: nat, q: NodeRef, k: nat)
    requires KeepsIds(n, a) && KeepsIds(n, b) && Relocated(a, b, m, p, j, q, k)
    ensures Relocated(n.TreeOf(a), n.TreeOf(b), m, p, j, q, k)
  {
    EmbedsKept(n, a, b, m);
    forall r | r in a.nodes && r != p && r != q
      ensures SameChildren(n.TreeOf(a), n.TreeOf(b), m, r)
    {
      SameChildrenKept(n, a, b, m, r);
    }
  }

  lemma PermutedKept(n: Normalizer, a: Tree, b: Tree, m: Renaming, p: NodeRef)
    requires KeepsIds(n, a) && KeepsIds(n, b) && Permuted(a, b, m, p)
    ensures Permuted(n.TreeOf(a), n.TreeOf(b), m, p)
  {
    EmbedsKept(n, a, b, m);
    forall r | r in a.nodes && r != p
      ensures SameChildren(n.TreeOf(a), n.TreeOf(b), m, r)
    {
      SameChildrenKept(n, a, b, m, r);
    }
  }

  lemma UneditedKept(n: Normalizer, a: Tree, b: Tree, m: Renaming)
    requires KeepsIds(n, a) && KeepsIds(n, b) && Unedited(a, b, m)
    ensures Unedited(n.TreeOf(a), n.TreeOf(b), m)
  {
    EmbedsKept(n, a, b, m);
    forall r | r in a.nodes
      ensures SameChildren(n.TreeOf(a), n.TreeOf(b), m, r)
    {
      SameChildrenKept(n, a, b, m, r);
    }
  }

  lemma EditKept(n: Normalizer, a: Tree, b: Tree, e: Edit, m: Renaming)
    requires KeepsIds(n, a) && KeepsIds(n, b) && e.Yields(a, b, m)
    ensures e.Yields(n.TreeOf(a), n.TreeOf(b), m)
  {
    match e
    case NoEdit => UneditedKept(n, a, b, m);
    case InsertSubtree(p, k, c) => GraftedKept(n, a, b, m, p, k, c);
    case DeleteSubtree(p, k, c) => GraftedKept(n, b, a, m, p, k, c);
    case MoveSubtree(p, j, q, k) => RelocatedKept(n, a, b, m, p, j, q, k);
    case PermuteChildren(p) => PermutedKept(n, a, b, m, p);
  }

  /** The normalized trees are related by the same edit. */
  lemma EditSurvives(n: Normalizer, a: Tree, b: Tree, e: Edit, m: Renaming)
    requires KeepsIds(n, a) && KeepsIds(n, b) && Identified(a, b)
    requires e.Yields(a, b, m) && e.RootsIdentified(a, b)
    ensures Identified(n.TreeOf(a), n.TreeOf(b))
    ensures e.Yields(n.TreeOf(a), n.TreeOf(b), m) && e.RootsIdentified(n.TreeOf(a), n.TreeOf(b))
  {
    SameIdKept(n, a, b, a.root, b.root);
    IdentifiedKept(n, a, b);
    EditKept(n, a, b, e, m);
  }

  /**
   * The whole engine on one structural edit of the submitted trees: whenever it delivers a result,
   * whatever the content, the signatures and the thresholds, the operations are the one that names the
   * edit and a MATCH or UPDATE for every other surviving non-root node.
   */
  lemma EngineReportsOneEdit(c: Command, lang: Language, r: Reconciled, z: Reconciliation, fired: seq<Firing>, e: Edit,
                             m: Renaming)
    requires Delivered(c, lang, r, z, fired)
    requires c.operation.AllEnabled() && PersistentId in c.matching.authoritative
    requires KeepsIds(Normalizer(c.normalization, lang.sp), c.source)
    requires KeepsIds(Normalizer(c.normalization, lang.sp), c.target)
    requires Identified(c.source, c.target)
    requires e.Yields(c.source, c.target, m) && e.RootsIdentified(c.source, c.target)
    ensures e.ReportedBy(z.run, m)
  {
    EditSurvives(Normalizer(c.normalization, lang.sp), c.source, c.target, e, m);
    OneEditOneOperation(z, e, m);
  }
}
