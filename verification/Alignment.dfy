/** Alignment of the children of corresponding parents. */
module Alignment {
  import opened Options
  import opened Ordering
  import opened Matches

  datatype EdgeKind = Aligned | SourceOnly | TargetOnly | UnresolvedSource | UnresolvedTarget

  datatype AlignedPair = AlignedPair(
    kind: EdgeKind,
    source: Option<NodeRef>,
    target: Option<NodeRef>,
    matchId: Option<MatchId>,
    ambiguousIds: seq<MatchId>)
  {
    predicate IsUnresolved()
    {
      kind == UnresolvedSource || kind == UnresolvedTarget
    }

    predicate WellFormed()
    {
      (kind == Aligned ==> source.Some? && target.Some?) &&
      (IsUnresolved() ==> ambiguousIds != [])
    }
  }

  datatype Region = Region(
    sourceParent: NodeRef,
    targetParent: NodeRef,
    ordered: bool,
    pairs: seq<AlignedPair>,
    orderChanged: bool,
    unresolved: bool)
  {
    function Id(): MatchId
    {
      MatchId(sourceParent, targetParent)
    }

    /** The id the record carries. */
    function Name(): string
    {
      "region:" + Arrow(Id())
    }

    ghost predicate WellFormed()
    {
      (forall p :: p in pairs ==> p.WellFormed()) &&
      ((exists p :: p in pairs && p.IsUnresolved()) ==> unresolved)
    }
  }

  datatype AlignmentResult = AlignmentResult(regions: seq<Region>, unresolvedIds: seq<MatchId>)
  {
    /** Region names are unique and the listed ids are exactly the unresolved regions. */
    ghost predicate WellFormed()
    {
      NamesDiffer(regions) && Distinct(unresolvedIds) &&
      (forall id :: id in unresolvedIds <==> exists r :: r in regions && r.unresolved && r.Id() == id) &&
      forall r :: r in regions ==> r.WellFormed()
    }
  }

  ghost predicate NamesDiffer(regions: seq<Region>)
  {
    forall i, j :: 0 <= i < j < |regions| ==> regions[i].Name() != regions[j].Name()
  }

  lemma NameIsArrow(r: Region, q: Region)
    ensures r.Name() == q.Name() <==> Arrow(r.Id()) == Arrow(q.Id())
  {
    assert r.Name()[7..] == Arrow(r.Id()) && q.Name()[7..] == Arrow(q.Id());
  }

  lemma {:induction false} DistinctBySize(xs: seq<string>)
    ensures |set x | x in xs| <= |xs|
    ensures |set x | x in xs| == |xs| <==> Distinct(xs)
  {
    if xs != [] {
      var rest, last := xs[..|xs| - 1], xs[|xs| - 1];
      assert xs == rest + [last];
      DistinctBySize(rest);
      var members := set x | x in rest;
      assert (set x | x in xs) == members + {last};
      assert last in rest <==> last in members;
      assert forall i :: 0 <= i < |rest| ==> xs[i] == rest[i];
    }
  }

  /** The constructor's comparison of the number of names with the number of different names. */
  method CheckNames(regions: seq<Region>) returns (ok: bool)
    ensures ok <==> NamesDiffer(regions)
  {
    var names := seq(|regions|, i requires 0 <= i < |regions| => regions[i].Name());
    DistinctBySize(names);
    ok := |set name | name in names| == |names|;
    assert forall i :: 0 <= i < |regions| ==> names[i] == regions[i].Name();
  }

  /** The confirmed partner of a source node, if any. */
  type Partner = NodeRef -> Option<NodeRef>

  /** Match ids per unsettled node that takes part in ambiguous edges. */
  type AmbiguousIndex = map<NodeRef, seq<MatchId>>

  // ---------------------------------------------------------------- positions of one region

  predicate MatchedHere(partner: Partner, tcs: seq<NodeRef>, sc: NodeRef)
  {
    partner(sc).Some? && partner(sc).value in tcs
  }

  /** Source children among the first `k` whose partner is a child of the target parent. */
  function MatchedPairs(scs: seq<NodeRef>, tcs: seq<NodeRef>, partner: Partner, k: nat): seq<(NodeRef, NodeRef)>
    requires k <= |scs|
    decreases k
  {
    if k == 0 then []
    else
      MatchedPairs(scs, tcs, partner, k - 1) +
      if MatchedHere(partner, tcs, scs[k - 1]) then [(scs[k - 1], partner(scs[k - 1]).value)] else []
  }

  function TargetsOf(matched: seq<(NodeRef, NodeRef)>): seq<NodeRef>
  {
    seq(|matched|, i requires 0 <= i < |matched| => matched[i].1)
  }

  function AlignedPosition(p: (NodeRef, NodeRef)): AlignedPair
  {
    AlignedPair(Aligned, Some(p.0), Some(p.1), Some(MatchId(p.0, p.1)), [])
  }

  function AlignedPositions(matched: seq<(NodeRef, NodeRef)>): seq<AlignedPair>
  {
    seq(|matched|, i requires 0 <= i < |matched| => AlignedPosition(matched[i]))
  }

  function SourcePosition(sc: NodeRef, ambiguous: AmbiguousIndex): AlignedPair
  {
    if sc in ambiguous && ambiguous[sc] != []
    then AlignedPair(UnresolvedSource, Some(sc), None, None, ambiguous[sc])
    else AlignedPair(SourceOnly, Some(sc), None, None, [])
  }

  /** Source children among the first `k` with no partner in `settled`. */
  function SourcePositions(scs: seq<NodeRef>, partner: Partner, settled: seq<NodeRef>, ambiguous: AmbiguousIndex,
                           k: nat)
    : seq<AlignedPair>
    requires k <= |scs|
    decreases k
  {
    if k == 0 then []
    else
      SourcePositions(scs, partner, settled, ambiguous, k - 1) +
      if MatchedHere(partner, settled, scs[k - 1]) then [] else [SourcePosition(scs[k - 1], ambiguous)]
  }

  function TargetPosition(tc: NodeRef, ambiguous: AmbiguousIndex): AlignedPair
  {
    if tc in ambiguous && ambiguous[tc] != []
    then AlignedPair(UnresolvedTarget, None, Some(tc), None, ambiguous[tc])
    else AlignedPair(TargetOnly, None, Some(tc), None, [])
  }

  function TargetPositions(tcs: seq<NodeRef>, settled: seq<NodeRef>, ambiguous: AmbiguousIndex,
                           k: nat): seq<AlignedPair>
    requires k <= |tcs|
    decreases k
  {
    if k == 0 then []
    else
      TargetPositions(tcs, settled, ambiguous, k - 1) +
      if tcs[k - 1] in settled then [] else [TargetPosition(tcs[k - 1], ambiguous)]
  }

  /** The first `k` items of `xs` that occur in `kept`, in order. */
  function Keep(xs: seq<NodeRef>, kept: seq<NodeRef>, k: nat): seq<NodeRef>
    requires k <= |xs|
    decreases k
  {
    if k == 0 then [] else Keep(xs, kept, k - 1) + if xs[k - 1] in kept then [xs[k - 1]] else []
  }

  function PositionsFor(scs: seq<NodeRef>, tcs: seq<NodeRef>, partner: Partner,
                        ambiguousSources: AmbiguousIndex, ambiguousTargets: AmbiguousIndex): seq<AlignedPair>
  {
    var matched := MatchedPairs(scs, tcs, partner, |scs|);
    var settled := TargetsOf(matched);
    AlignedPositions(matched) +
    SourcePositions(scs, partner, settled, ambiguousSources, |scs|) +
    TargetPositions(tcs, settled, ambiguousTargets, |tcs|)
  }

  predicate OrderChanged(scs: seq<NodeRef>, tcs: seq<NodeRef>, partner: Partner)
  {
    var settled := TargetsOf(MatchedPairs(scs, tcs, partner, |scs|));
    |settled| >= 2 && settled != Keep(tcs, settled, |tcs|)
  }

  ghost predicate IsRegion(region: Region, scs: seq<NodeRef>, tcs: seq<NodeRef>, partner: Partner, ordered: bool,
                           ambiguousSources: AmbiguousIndex, ambiguousTargets: AmbiguousIndex)
  {
    region.ordered == ordered &&
    region.pairs == PositionsFor(scs, tcs, partner, ambiguousSources, ambiguousTargets) &&
    (region.orderChanged <==> ordered && OrderChanged(scs, tcs, partner)) &&
    (region.unresolved <==> exists i :: 0 <= i < |region.pairs| && region.pairs[i].IsUnresolved())
  }

  method AlignChildren(sourceParent: NodeRef, targetParent: NodeRef, scs: seq<NodeRef>, tcs: seq<NodeRef>,
                       partner: Partner, ordered: bool,
                       ambiguousSources: AmbiguousIndex, ambiguousTargets: AmbiguousIndex)
    returns (region: Region)
    ensures region.sourceParent == sourceParent && region.targetParent == targetParent
    ensures IsRegion(region, scs, tcs, partner, ordered, ambiguousSources, ambiguousTargets)
  {
    var matched := MatchedPairs(scs, tcs, partner, |scs|);
    var settled := TargetsOf(matched);
    var aligned: seq<AlignedPair> := [];
    for i := 0 to |matched|
      invariant |aligned| == i && forall j :: 0 <= j < i ==> aligned[j] == AlignedPosition(matched[j])
    {
      aligned := aligned + [AlignedPosition(matched[i])];
    }
    assert aligned == AlignedPositions(matched);
    var sourceSide: seq<AlignedPair> := [];
    for i := 0 to |scs|
      invariant sourceSide == SourcePositions(scs, partner, settled, ambiguousSources, i)
    {
      var sc := scs[i];
      if partner(sc).Some? && partner(sc).value in settled {
        continue;
      }
      var ids := if sc in ambiguousSources then ambiguousSources[sc] else [];
      if ids != [] {
        sourceSide := sourceSide + [AlignedPair(UnresolvedSource, Some(sc), None, None, ids)];
      } else {
        sourceSide := sourceSide + [AlignedPair(SourceOnly, Some(sc), None, None, [])];
      }
    }
    var targetSide: seq<AlignedPair> := [];
    for i := 0 to |tcs|
      invariant targetSide == TargetPositions(tcs, settled, ambiguousTargets, i)
    {
      var tc := tcs[i];
      if tc in settled {
        continue;
      }
      var ids := if tc in ambiguousTargets then ambiguousTargets[tc] else [];
      if ids != [] {
        targetSide := targetSide + [AlignedPair(UnresolvedTarget, None, Some(tc), None, ids)];
      } else {
        targetSide := targetSide + [AlignedPair(TargetOnly, None, Some(tc), None, [])];
      }
    }
    var pairs := aligned + sourceSide + targetSide;
    var orderChanged := false;
    if ordered && |matched| >= 2 {
      orderChanged := settled != Keep(tcs, settled, |tcs|);
    }
    region := Region(sourceParent, targetParent, ordered, pairs, orderChanged,
                     exists i :: 0 <= i < |pairs| && pairs[i].IsUnresolved());
  }
}
