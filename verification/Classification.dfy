/** The four operation classifiers and the service that runs them over one alignment. */
module Classification {
  import opened Options
  import opened Ordering
  import opened Trees
  import opened Profiles
  import opened Matches
  import opened Alignment
  import opened Operations
  import Matcher

  datatype Context = Context(
    source: Tree,
    target: Tree,
    graph: MatchGraph,
    alignment: AlignmentResult,
    profile: OperationProfile)
  {
    /** True if two parents are the tree roots or a confirmed match. */
    predicate ParentsCorrespond(sp: NodeRef, tp: NodeRef)
    {
      (sp == source.root && tp == target.root) || graph.ConfirmedTargetFor(sp) == Some(tp)
    }

    /** A confirmed pair under parents that do not correspond. */
    predicate IsCrossParent(s: NodeRef, t: NodeRef)
    {
      s in source.nodes && t in target.nodes &&
      source.nodes[s].parent.Some? && target.nodes[t].parent.Some? &&
      !ParentsCorrespond(source.nodes[s].parent.value, target.nodes[t].parent.value)
    }

    predicate IsMovePair(s: NodeRef, t: NodeRef)
    {
      IsCrossParent(s, t) && graph.ConfirmedConfidence(s, t) >= profile.moveThreshold
    }

    ghost predicate Moved(s: NodeRef, t: NodeRef)
    {
      graph.Pairs(s, t) && IsMovePair(s, t)
    }

    /** Source refs on ambiguous edges without a confirmed match. */
    function AmbiguousSources(): set<NodeRef>
    {
      var confirmed := set c | c in graph.candidates && c.state == Confirmed :: c.source;
      set c | c in graph.candidates && c.state == Ambiguous && c.source !in confirmed :: c.source
    }

    function AmbiguousTargets(): set<NodeRef>
    {
      var confirmed := set c | c in graph.candidates && c.state == Confirmed :: c.target;
      set c | c in graph.candidates && c.state == Ambiguous && c.target !in confirmed :: c.target
    }

    predicate PresenceSuppressedRegion(r: Region)
    {
      profile.presence == SuppressUnresolvedRegions && r.unresolved
    }

    predicate PresenceSuppressedPair(p: AlignedPair, ambiguousSources: set<NodeRef>, ambiguousTargets: set<NodeRef>)
    {
      profile.presence != EmitAll &&
      (p.IsUnresolved() ||
       (p.kind == SourceOnly && p.source.Some? && p.source.value in ambiguousSources) ||
       (p.kind == TargetOnly && p.target.Some? && p.target.value in ambiguousTargets))
    }
  }

  /** What every classifier reads, computed once per run. */
  datatype Refs = Refs(
    movedSources: set<NodeRef>,
    movedTargets: set<NodeRef>,
    ambiguousSources: set<NodeRef>,
    ambiguousTargets: set<NodeRef>)

  ghost predicate AreRefs(ctx: Context, refs: Refs)
  {
    (forall s :: s in refs.movedSources <==> exists t :: ctx.Moved(s, t)) &&
    (forall t :: t in refs.movedTargets <==> exists s :: ctx.Moved(s, t)) &&
    refs.ambiguousSources == ctx.AmbiguousSources() && refs.ambiguousTargets == ctx.AmbiguousTargets()
  }

  // ---------------------------------------------------------------- one operation per position

  function MatchOperation(ctx: Context, s: NodeRef, t: NodeRef, changed: bool): StructuralOperation
  {
    StructuralOperation(
      if changed then UpdateId(s, t) else MatchedId(s, t), if changed then Update else Match, [s], [t], None, None,
      ctx.graph.ConfirmedConfidence(s, t), [MatchId(s, t)], if changed then [ContentChanged] else [IdentityPreserved])
  }

  function DeleteOperation(s: NodeRef, unresolved: bool): StructuralOperation
  {
    StructuralOperation(DeleteId(s), Delete, [s], [], None, None, 1.0, [],
                        if unresolved then [SourceOnlyCode, ForcedByPolicy] else [SourceOnlyCode])
  }

  function InsertOperation(t: NodeRef, unresolved: bool): StructuralOperation
  {
    StructuralOperation(InsertId(t), Insert, [], [t], None, None, 1.0, [],
                        if unresolved then [TargetOnlyCode, ForcedByPolicy] else [TargetOnlyCode])
  }

  function MoveOperation(ctx: Context, s: NodeRef, t: NodeRef): StructuralOperation
    requires ctx.IsCrossParent(s, t)
  {
    StructuralOperation(MoveId(s, t), Move, [s], [t],
                        ctx.graph.ConfirmedTargetFor(ctx.source.nodes[s].parent.value), ctx.target.nodes[t].parent,
                        ctx.graph.ConfirmedConfidence(s, t), [MatchId(s, t)], [ConfirmedIdentity, ParentChanged])
  }

  predicate ContentDiffers(ctx: Context, s: NodeRef, t: NodeRef)
  {
    s in ctx.source.nodes && t in ctx.target.nodes &&
    !SameProperties(ctx.source.nodes[s].content, ctx.target.nodes[t].content)
  }

  /** MATCH or UPDATE for an aligned position. */
  function MatchAt(ctx: Context, p: AlignedPair): Option<StructuralOperation>
  {
    if p.kind != Aligned || p.source == None || p.target == None then None
    else
      var changed := ContentDiffers(ctx, p.source.value, p.target.value);
      if (if changed then Update else Match) !in ctx.profile.enabled then None
      else Some(MatchOperation(ctx, p.source.value, p.target.value, changed))
  }

  /** DELETE or INSERT for a one-sided position that nothing withholds. */
  function PresenceAt(ctx: Context, refs: Refs, r: Region, p: AlignedPair): Option<StructuralOperation>
  {
    if ctx.PresenceSuppressedRegion(r) || p.kind == Aligned ||
       ctx.PresenceSuppressedPair(p, refs.ambiguousSources, refs.ambiguousTargets) then None
    else if p.kind == SourceOnly || p.kind == UnresolvedSource then
      if p.source == None || p.source.value in refs.movedSources || Delete !in ctx.profile.enabled then None
      else Some(DeleteOperation(p.source.value, p.IsUnresolved()))
    else
      if p.target == None || p.target.value in refs.movedTargets || Insert !in ctx.profile.enabled then None
      else Some(InsertOperation(p.target.value, p.IsUnresolved()))
  }

  function AlignedOf(pairs: seq<AlignedPair>, k: nat): seq<AlignedPair>
    requires k <= |pairs|
    decreases k
  {
    if k == 0 then [] else AlignedOf(pairs, k - 1) + if pairs[k - 1].kind == Aligned then [pairs[k - 1]] else []
  }

  function SourcesIn(pairs: seq<AlignedPair>): seq<NodeRef>
    requires forall i :: 0 <= i < |pairs| ==> pairs[i].source.Some?
  {
    seq(|pairs|, i requires 0 <= i < |pairs| => pairs[i].source.value)
  }

  function TargetsIn(pairs: seq<AlignedPair>): seq<NodeRef>
    requires forall i :: 0 <= i < |pairs| ==> pairs[i].target.Some?
  {
    seq(|pairs|, i requires 0 <= i < |pairs| => pairs[i].target.value)
  }

  function IdsIn(pairs: seq<AlignedPair>): seq<MatchId>
    requires forall i :: 0 <= i < |pairs| ==> pairs[i].source.Some? && pairs[i].target.Some?
  {
    seq(|pairs|, i requires 0 <= i < |pairs| => MatchId(pairs[i].source.value, pairs[i].target.value))
  }

  predicate BothSides(pairs: seq<AlignedPair>)
  {
    forall i :: 0 <= i < |pairs| ==> pairs[i].source.Some? && pairs[i].target.Some?
  }

  /** REORDER for an ordered region whose matched siblings changed order. */
  function ReorderAt(ctx: Context, r: Region): Option<StructuralOperation>
  {
    var matched := AlignedOf(r.pairs, |r.pairs|);
    if Reorder !in ctx.profile.enabled || !(r.ordered && r.orderChanged) || |matched| < 2 || !BothSides(matched) then
      None
    else
      Some(StructuralOperation(ReorderId(r.sourceParent), Reorder, SourcesIn(matched), TargetsIn(matched), None, None,
                               1.0, IdsIn(matched), [SiblingOrderChanged]))
  }

  // ---------------------------------------------------------------- what the classifiers report

  ghost predicate Reports(ctx: Context, refs: Refs, op: StructuralOperation)
  {
    MatchReported(ctx, op) || PresenceReported(ctx, refs, op) || MoveReported(ctx, op) || ReorderReported(ctx, op)
  }

  ghost predicate MatchReported(ctx: Context, op: StructuralOperation)
  {
    exists i, j :: 0 <= i < |ctx.alignment.regions| && 0 <= j < |ctx.alignment.regions[i].pairs| &&
      MatchAt(ctx, ctx.alignment.regions[i].pairs[j]) == Some(op)
  }

  ghost predicate PresenceReported(ctx: Context, refs: Refs, op: StructuralOperation)
  {
    exists i, j :: 0 <= i < |ctx.alignment.regions| && 0 <= j < |ctx.alignment.regions[i].pairs| &&
      PresenceAt(ctx, refs, ctx.alignment.regions[i], ctx.alignment.regions[i].pairs[j]) == Some(op)
  }

  ghost predicate MoveReported(ctx: Context, op: StructuralOperation)
  {
    Move in ctx.profile.enabled && exists s, t :: ctx.Moved(s, t) && op == MoveOperation(ctx, s, t)
  }

  ghost predicate ReorderReported(ctx: Context, op: StructuralOperation)
  {
    exists i :: 0 <= i < |ctx.alignment.regions| && ReorderAt(ctx, ctx.alignment.regions[i]) == Some(op)
  }

  // ---------------------------------------------------------------- walking the positions

  datatype Spot = Spot(region: nat, pair: nat)

  type Finding = (Region, AlignedPair) -> Option<StructuralOperation>

  predicate Before(p: Spot, i: nat, j: nat)
  {
    p.region < i || (p.region == i && p.pair < j)
  }

  ghost predicate Valid(regions: seq<Region>, p: Spot)
  {
    p.region < |regions| && p.pair < |regions[p.region].pairs|
  }

  ghost function At(regions: seq<Region>, find: Finding, p: Spot): Option<StructuralOperation>
  {
    if Valid(regions, p) then find(regions[p.region], regions[p.region].pairs[p.pair]) else None
  }

  /** `ops` are the findings of all positions before (i, j), and `spots` says where each came from. */
  ghost predicate Collected(regions: seq<Region>, find: Finding, i: nat, j: nat,
                            ops: seq<StructuralOperation>, spots: seq<Spot>)
  {
    |ops| == |spots| && Distinct(spots) &&
    (forall u :: 0 <= u < |spots| ==> Before(spots[u], i, j) && At(regions, find, spots[u]) == Some(ops[u])) &&
    forall p :: Before(p, i, j) && At(regions, find, p).Some? ==> p in spots
  }

  lemma CollectStep(regions: seq<Region>, find: Finding, i: nat, j: nat, ops: seq<StructuralOperation>,
                    spots: seq<Spot>)
    requires i < |regions| && j < |regions[i].pairs| && Collected(regions, find, i, j, ops, spots)
    ensures match find(regions[i], regions[i].pairs[j])
      case Some(op) => Collected(regions, find, i, j + 1, ops + [op], spots + [Spot(i, j)])
      case None => Collected(regions, find, i, j + 1, ops, spots)
  {
    assert forall p :: Before(p, i, j + 1) <==> Before(p, i, j) || p == Spot(i, j);
  }

  lemma CollectSkip(regions: seq<Region>, find: Finding, i: nat, ops: seq<StructuralOperation>, spots: seq<Spot>)
    requires i < |regions| && Collected(regions, find, i, 0, ops, spots)
    requires forall j :: 0 <= j < |regions[i].pairs| ==> find(regions[i], regions[i].pairs[j]) == None
    ensures Collected(regions, find, i + 1, 0, ops, spots)
  {
    forall p | Before(p, i + 1, 0) && At(regions, find, p).Some?
      ensures p in spots
    {
      assert Before(p, i, 0);
    }
  }

  lemma CollectNext(regions: seq<Region>, find: Finding, i: nat, ops: seq<StructuralOperation>, spots: seq<Spot>)
    requires i < |regions| && Collected(regions, find, i, |regions[i].pairs|, ops, spots)
    ensures Collected(regions, find, i + 1, 0, ops, spots)
  {
    forall p | Before(p, i + 1, 0) && At(regions, find, p).Some?
      ensures p in spots
    {
      assert Before(p, i, |regions[i].pairs|);
    }
  }

  ghost predicate Found(regions: seq<Region>, find: Finding, op: StructuralOperation)
  {
    exists i, j ::
      0 <= i < |regions| && 0 <= j < |regions[i].pairs| && find(regions[i], regions[i].pairs[j]) == Some(op)
  }

  lemma CollectedIsFound(regions: seq<Region>, find: Finding, ops: seq<StructuralOperation>, spots: seq<Spot>)
    requires Collected(regions, find, |regions|, 0, ops, spots)
    ensures forall op :: op in ops <==> Found(regions, find, op)
  {
    forall op
      ensures op in ops <==> Found(regions, find, op)
    {
      if op in ops {
        var u :| 0 <= u < |ops| && ops[u] == op;
        assert At(regions, find, spots[u]) == Some(op);
      }
      if Found(regions, find, op) {
        var i, j :| 0 <= i < |regions| && 0 <= j < |regions[i].pairs| &&
          find(regions[i], regions[i].pairs[j]) == Some(op);
        assert Before(Spot(i, j), |regions|, 0) && At(regions, find, Spot(i, j)) == Some(op);
        var u :| 0 <= u < |spots| && spots[u] == Spot(i, j);
      }
    }
  }

  /** Two different positions yield the operation. */
  ghost predicate FoundTwice(regions: seq<Region>, find: Finding, op: StructuralOperation)
  {
    exists p, q :: p != q && At(regions, find, p) == Some(op) && At(regions, find, q) == Some(op)
  }

  lemma CollectedTwice(regions: seq<Region>, find: Finding, ops: seq<StructuralOperation>, spots: seq<Spot>)
    requires Collected(regions, find, |regions|, 0, ops, spots)
    ensures forall op :: multiset(ops)[op] >= 2 <==> FoundTwice(regions, find, op)
  {
    forall op
      ensures multiset(ops)[op] >= 2 <==> FoundTwice(regions, find, op)
    {
      if multiset(ops)[op] >= 2 { RepeatIsFoundTwice(regions, find, ops, spots, op); }
      if FoundTwice(regions, find, op) { FoundTwiceRepeats(regions, find, ops, spots, op); }
    }
  }

  lemma RepeatIsFoundTwice(regions: seq<Region>, find: Finding, ops: seq<StructuralOperation>, spots: seq<Spot>,
                           op: StructuralOperation)
    requires Collected(regions, find, |regions|, 0, ops, spots) && multiset(ops)[op] >= 2
    ensures FoundTwice(regions, find, op)
  {
    TwiceIff(ops, op);
    var u, v :| 0 <= u < v < |ops| && ops[u] == op && ops[v] == op;
    assert At(regions, find, spots[u]) == Some(op) && At(regions, find, spots[v]) == Some(op);
  }

  lemma FoundTwiceRepeats(regions: seq<Region>, find: Finding, ops: seq<StructuralOperation>, spots: seq<Spot>,
                          op: StructuralOperation)
    requires Collected(regions, find, |regions|, 0, ops, spots) && FoundTwice(regions, find, op)
    ensures multiset(ops)[op] >= 2
  {
    TwiceIff(ops, op);
    var p, q :| p != q && At(regions, find, p) == Some(op) && At(regions, find, q) == Some(op);
    var u := SpotListed(regions, find, ops, spots, op, p);
    var v := SpotListed(regions, find, ops, spots, op, q);
    assert u < v || v < u;
  }

  lemma SpotListed(regions: seq<Region>, find: Finding, ops: seq<StructuralOperation>, spots: seq<Spot>,
                   op: StructuralOperation, p: Spot) returns (u: nat)
    requires Collected(regions, find, |regions|, 0, ops, spots) && At(regions, find, p) == Some(op)
    ensures u < |spots| == |ops| && spots[u] == p && ops[u] == op
  {
    assert Before(p, |regions|, 0);
    u :| 0 <= u < |spots| && spots[u] == p;
  }

  // ---------------------------------------------------------------- what the service returns

  function FindMatch(ctx: Context): Finding
  {
    (r, p) => MatchAt(ctx, p)
  }

  function FindPresence(ctx: Context, refs: Refs): Finding
  {
    (r, p) => PresenceAt(ctx, refs, r, p)
  }

  ghost predicate ReorderTwice(ctx: Context, op: StructuralOperation)
  {
    exists i, j :: 0 <= i < j < |ctx.alignment.regions| &&
      ReorderAt(ctx, ctx.alignment.regions[i]) == Some(op) && ReorderAt(ctx, ctx.alignment.regions[j]) == Some(op)
  }

  /** Two positions, or two regions, yield the operation. */
  ghost predicate ReportedTwice(ctx: Context, refs: Refs, op: StructuralOperation)
  {
    FoundTwice(ctx.alignment.regions, FindMatch(ctx), op) ||
    FoundTwice(ctx.alignment.regions, FindPresence(ctx, refs), op) ||
    ReorderTwice(ctx, op)
  }

  /**
   * The contract of `classify`: exactly the reported operations, in output order; an operation occurs
   * more than once exactly if two positions or regions report it.
   */
  ghost predicate IsClassification(ctx: Context, refs: Refs, ops: seq<StructuralOperation>)
  {
    AreRefs(ctx, refs) &&
    (forall op {:trigger Reports(ctx, refs, op)} :: op in ops <==> Reports(ctx, refs, op)) &&
    OrderedBy(OperationNotAbove, ops) &&
    (ctx.graph.OneToOne() ==>
      forall op {:trigger ReportedTwice(ctx, refs, op)} :: multiset(ops)[op] >= 2 <==> ReportedTwice(ctx, refs, op))
  }

  // ---------------------------------------------------------------- the classifiers

  method ClassifyMatches(ctx: Context) returns (ops: seq<StructuralOperation>)
    ensures forall op :: op in ops <==> MatchReported(ctx, op)
    ensures forall op :: multiset(ops)[op] >= 2 <==> FoundTwice(ctx.alignment.regions, FindMatch(ctx), op)
  {
    ghost var find := FindMatch(ctx);
    var regions := ctx.alignment.regions;
    ghost var spots: seq<Spot> := [];
    ops := [];
    for i := 0 to |regions|
      invariant Collected(regions, find, i, 0, ops, spots)
    {
      var pairs := regions[i].pairs;
      for j := 0 to |pairs|
        invariant Collected(regions, find, i, j, ops, spots)
      {
        CollectStep(regions, find, i, j, ops, spots);
        var p := pairs[j];
        if p.kind != Aligned || p.source == None || p.target == None {
          continue;
        }
        var changed := ContentDiffers(ctx, p.source.value, p.target.value);
        var kind := if changed then Update else Match;
        if kind !in ctx.profile.enabled {
          continue;
        }
        ops := ops + [MatchOperation(ctx, p.source.value, p.target.value, changed)];
        spots := spots + [Spot(i, j)];
      }
      CollectNext(regions, find, i, ops, spots);
    }
    CollectedIsFound(regions, find, ops, spots);
    assert forall op :: MatchReported(ctx, op) <==> Found(regions, find, op);
    CollectedTwice(regions, find, ops, spots);
  }

  method ClassifyPresence(ctx: Context, refs: Refs) returns (ops: seq<StructuralOperation>)
    ensures forall op :: op in ops <==> PresenceReported(ctx, refs, op)
    ensures forall op :: multiset(ops)[op] >= 2 <==> FoundTwice(ctx.alignment.regions, FindPresence(ctx, refs), op)
  {
    ghost var find := FindPresence(ctx, refs);
    var regions := ctx.alignment.regions;
    ghost var spots: seq<Spot> := [];
    ops := [];
    for i := 0 to |regions|
      invariant Collected(regions, find, i, 0, ops, spots)
    {
      if ctx.PresenceSuppressedRegion(regions[i]) {
        CollectSkip(regions, find, i, ops, spots);
        continue;
      }
      var pairs := regions[i].pairs;
      for j := 0 to |pairs|
        invariant Collected(regions, find, i, j, ops, spots)
      {
        CollectStep(regions, find, i, j, ops, spots);
        var p := pairs[j];
        if p.kind == Aligned {
          continue;
        }
        if ctx.PresenceSuppressedPair(p, refs.ambiguousSources, refs.ambiguousTargets) {
          continue;
        }
        if p.kind == SourceOnly || p.kind == UnresolvedSource {
          if p.source == None || p.source.value in refs.movedSources {
            continue;
          }
          if Delete !in ctx.profile.enabled {
            continue;
          }
          ops := ops + [DeleteOperation(p.source.value, p.IsUnresolved())];
        } else {
          if p.target == None || p.target.value in refs.movedTargets {
            continue;
          }
          if Insert !in ctx.profile.enabled {
            continue;
          }
          ops := ops + [InsertOperation(p.target.value, p.IsUnresolved())];
        }
        spots := spots + [Spot(i, j)];
      }
      CollectNext(regions, find, i, ops, spots);
    }
    CollectedIsFound(regions, find, ops, spots);
    assert forall op :: PresenceReported(ctx, refs, op) <==> Found(regions, find, op);
    CollectedTwice(regions, find, ops, spots);
  }

  /** Confirmed pairs under parents that do not correspond, confident enough to be moves. */
  method MovePairs(ctx: Context) returns (pairs: seq<MatchId>)
    ensures forall id :: id in pairs <==> ctx.Moved(id.source, id.target)
    ensures ctx.graph.OneToOne() ==> Distinct(pairs)
  {
    var listed: seq<MatchId> := [];
    var cs := ctx.graph.candidates;
    for i := 0 to |cs|
      invariant forall id :: id in listed <==> exists k :: 0 <= k < i && cs[k].state == Confirmed && cs[k].Id() == id
      invariant ctx.graph.OneToOne() ==> Distinct(listed)
    {
      if cs[i].state == Confirmed {
        assert ctx.graph.OneToOne() ==> forall k :: 0 <= k < i ==> Compatible(cs[k], cs[i]);
        assert ctx.graph.OneToOne() ==> cs[i].Id() !in listed;
        listed := listed + [cs[i].Id()];
      }
    }
    Matcher.PairTotalPreorder();
    var confirmed := Sort(Matcher.PairNotAbove, listed);
    pairs := [];
    for i := 0 to |confirmed|
      invariant forall id :: id in pairs <==> id in confirmed[..i] && ctx.IsMovePair(id.source, id.target)
      invariant ctx.graph.OneToOne() ==> Distinct(pairs)
    {
      assert confirmed[..i + 1] == confirmed[..i] + [confirmed[i]];
      if ctx.IsMovePair(confirmed[i].source, confirmed[i].target) {
        assert Distinct(confirmed) ==> confirmed[i] !in confirmed[..i];
        pairs := pairs + [confirmed[i]];
      }
    }
    assert confirmed[..|confirmed|] == confirmed;
    forall id
      ensures id in listed <==> ctx.graph.Pairs(id.source, id.target)
    {
      if ctx.graph.Pairs(id.source, id.target) {
        var c :| c in cs && c.state == Confirmed && c.source == id.source && c.target == id.target;
        var k :| 0 <= k < |cs| && cs[k] == c;
        assert cs[k].Id() == id;
      }
    }
  }

  method ClassifyMoves(ctx: Context, pairs: seq<MatchId>) returns (ops: seq<StructuralOperation>)
    requires forall id :: id in pairs <==> ctx.Moved(id.source, id.target)
    ensures forall op :: op in ops <==> MoveReported(ctx, op)
    ensures Distinct(pairs) ==> Distinct(ops)
  {
    ops := [];
    if Move !in ctx.profile.enabled {
      return;
    }
    for i := 0 to |pairs|
      invariant |ops| == i
      invariant forall k | 0 <= k < i ::
        ctx.IsCrossParent(pairs[k].source, pairs[k].target) &&
        ops[k] == MoveOperation(ctx, pairs[k].source, pairs[k].target)
    {
      assert pairs[i] in pairs;
      ops := ops + [MoveOperation(ctx, pairs[i].source, pairs[i].target)];
    }
    forall op
      ensures op in ops <==> MoveReported(ctx, op)
    {
      if op in ops {
        var k :| 0 <= k < |ops| && ops[k] == op;
        assert pairs[k] in pairs;
      }
      if MoveReported(ctx, op) {
        var s, t :| ctx.Moved(s, t) && op == MoveOperation(ctx, s, t);
        assert MatchId(s, t) in pairs;
        var k :| 0 <= k < |pairs| && pairs[k] == MatchId(s, t);
        assert ops[k] == op;
      }
    }
    forall u, v | 0 <= u < v < |ops| && Distinct(pairs)
      ensures ops[u] != ops[v]
    {
      assert pairs[u] != pairs[v];
    }
  }

  method ClassifyReorders(ctx: Context) returns (ops: seq<StructuralOperation>)
    ensures forall op :: op in ops <==> ReorderReported(ctx, op)
    ensures forall op :: multiset(ops)[op] >= 2 <==> ReorderTwice(ctx, op)
  {
    ops := [];
    ghost var at: seq<nat> := [];
    var regions := ctx.alignment.regions;
    for i := 0 to |regions|
      invariant |at| == |ops| &&
        forall u :: 0 <= u < |at| ==> at[u] < i && ReorderAt(ctx, regions[at[u]]) == Some(ops[u])
      invariant forall u, v :: 0 <= u < v < |at| ==> at[u] < at[v]
      invariant forall k :: 0 <= k < i && ReorderAt(ctx, regions[k]).Some? ==> k in at
    {
      var r := regions[i];
      if Reorder !in ctx.profile.enabled || !(r.ordered && r.orderChanged) {
        continue;
      }
      var matched := AlignedOf(r.pairs, |r.pairs|);
      if |matched| < 2 || !BothSides(matched) {
        continue;
      }
      ops := ops + [StructuralOperation(ReorderId(r.sourceParent), Reorder, SourcesIn(matched), TargetsIn(matched),
                                        None, None, 1.0, IdsIn(matched), [SiblingOrderChanged])];
      at := at + [i];
    }
    forall op
      ensures op in ops <==> ReorderReported(ctx, op)
    {
      if ReorderReported(ctx, op) {
        var k :| 0 <= k < |regions| && ReorderAt(ctx, regions[k]) == Some(op);
        var u :| 0 <= u < |at| && at[u] == k;
        assert ops[u] == op;
      }
    }
    RegionsTwice(ctx, ops, at);
  }

  type Pick = nat -> Option<StructuralOperation>

  ghost predicate PickedTwice(pick: Pick, op: StructuralOperation)
  {
    exists i, j :: i < j && pick(i) == Some(op) && pick(j) == Some(op)
  }

  lemma PicksTwice(pick: Pick, ops: seq<StructuralOperation>, at: seq<nat>)
    requires |at| == |ops| && forall u :: 0 <= u < |at| ==> pick(at[u]) == Some(ops[u])
    requires forall u, v :: 0 <= u < v < |at| ==> at[u] < at[v]
    requires forall k :: pick(k).Some? ==> k in at
    ensures forall op :: multiset(ops)[op] >= 2 <==> PickedTwice(pick, op)
  {
    forall op
      ensures multiset(ops)[op] >= 2 <==> PickedTwice(pick, op)
    {
      if multiset(ops)[op] >= 2 { RepeatIsPickedTwice(pick, ops, at, op); }
      if PickedTwice(pick, op) { PickedTwiceRepeats(pick, ops, at, op); }
    }
  }

  lemma RepeatIsPickedTwice(pick: Pick, ops: seq<StructuralOperation>, at: seq<nat>, op: StructuralOperation)
    requires |at| == |ops| && forall u :: 0 <= u < |at| ==> pick(at[u]) == Some(ops[u])
    requires forall u, v :: 0 <= u < v < |at| ==> at[u] < at[v]
    requires multiset(ops)[op] >= 2
    ensures PickedTwice(pick, op)
  {
    TwiceIff(ops, op);
    var u, v :| 0 <= u < v < |ops| && ops[u] == op && ops[v] == op;
    assert at[u] < at[v] && pick(at[u]) == Some(op) && pick(at[v]) == Some(op);
  }

  lemma PickedTwiceRepeats(pick: Pick, ops: seq<StructuralOperation>, at: seq<nat>, op: StructuralOperation)
    requires |at| == |ops| && forall u :: 0 <= u < |at| ==> pick(at[u]) == Some(ops[u])
    requires forall k :: pick(k).Some? ==> k in at
    requires PickedTwice(pick, op)
    ensures multiset(ops)[op] >= 2
  {
    TwiceIff(ops, op);
    var i, j :| i < j && pick(i) == Some(op) && pick(j) == Some(op);
    var u :| 0 <= u < |at| && at[u] == i;
    var v :| 0 <= v < |at| && at[v] == j;
    assert ops[u] == op && ops[v] == op && (u < v || v < u);
  }

  lemma RegionsTwice(ctx: Context, ops: seq<StructuralOperation>, at: seq<nat>)
    requires |at| == |ops|
    requires forall u :: 0 <= u < |at| ==>
      at[u] < |ctx.alignment.regions| && ReorderAt(ctx, ctx.alignment.regions[at[u]]) == Some(ops[u])
    requires forall u, v :: 0 <= u < v < |at| ==> at[u] < at[v]
    requires forall k :: 0 <= k < |ctx.alignment.regions| && ReorderAt(ctx, ctx.alignment.regions[k]).Some? ==> k in at
    ensures forall op :: multiset(ops)[op] >= 2 <==> ReorderTwice(ctx, op)
  {
    var pick := (k: nat) => if k < |ctx.alignment.regions| then ReorderAt(ctx, ctx.alignment.regions[k]) else None;
    PicksTwice(pick, ops, at);
    forall op
      ensures PickedTwice(pick, op) <==> ReorderTwice(ctx, op)
    {
      if PickedTwice(pick, op) {
        var i, j :| i < j && pick(i) == Some(op) && pick(j) == Some(op);
      }
      if ReorderTwice(ctx, op) {
        var i, j :| 0 <= i < j < |ctx.alignment.regions| &&
          ReorderAt(ctx, ctx.alignment.regions[i]) == Some(op) && ReorderAt(ctx, ctx.alignment.regions[j]) == Some(op);
        assert pick(i) == Some(op) && pick(j) == Some(op);
      }
    }
  }

  // ---------------------------------------------------------------- the service

  method Classify(ctx: Context) returns (ops: seq<StructuralOperation>, refs: Refs)
    ensures IsClassification(ctx, refs, ops)
  {
    var moves := MovePairs(ctx);
    refs := Refs(set id | id in moves :: id.source, set id | id in moves :: id.target,
                 ctx.AmbiguousSources(), ctx.AmbiguousTargets());
    assert AreRefs(ctx, refs) by {
      forall s, t | ctx.Moved(s, t)
        ensures s in refs.movedSources && t in refs.movedTargets
      {
        assert MatchId(s, t) in moves;
      }
    }
    var matches := ClassifyMatches(ctx);
    var presence := ClassifyPresence(ctx, refs);
    var moved := ClassifyMoves(ctx, moves);
    var reorders := ClassifyReorders(ctx);
    var all := matches + presence + moved + reorders;
    if ctx.graph.OneToOne() {
      KindsCount(ctx, refs, matches, presence, moved, reorders);
    }
    OperationOrder();
    ops := Sort(OperationNotAbove, all);
  }

  /** The classifiers report different kinds, so the counts do not mix. */
  lemma KindsCount(ctx: Context, refs: Refs, matches: seq<StructuralOperation>, presence: seq<StructuralOperation>,
                   moved: seq<StructuralOperation>, reorders: seq<StructuralOperation>)
    requires Distinct(moved)
    requires forall op :: op in matches <==> MatchReported(ctx, op)
    requires forall op :: op in presence <==> PresenceReported(ctx, refs, op)
    requires forall op :: op in moved <==> MoveReported(ctx, op)
    requires forall op :: op in reorders <==> ReorderReported(ctx, op)
    requires forall op :: multiset(matches)[op] >= 2 <==> FoundTwice(ctx.alignment.regions, FindMatch(ctx), op)
    requires forall op :: multiset(presence)[op] >= 2 <==>
      FoundTwice(ctx.alignment.regions, FindPresence(ctx, refs), op)
    requires forall op :: multiset(reorders)[op] >= 2 <==> ReorderTwice(ctx, op)
    ensures forall op :: multiset(matches + presence + moved + reorders)[op] >= 2 <==> ReportedTwice(ctx, refs, op)
  {
    DistinctCounts(moved);
    forall op
      ensures multiset(matches + presence + moved + reorders)[op] >= 2 <==> ReportedTwice(ctx, refs, op)
    {
      KindOf(ctx, refs, op);
      assert multiset(matches)[op] > 0 ==> MatchReported(ctx, op);
      assert multiset(presence)[op] > 0 ==> PresenceReported(ctx, refs, op);
      assert multiset(moved)[op] > 0 ==> MoveReported(ctx, op);
      assert multiset(reorders)[op] > 0 ==> ReorderReported(ctx, op);
    }
  }

  lemma KindOf(ctx: Context, refs: Refs, op: StructuralOperation)
    ensures MatchReported(ctx, op) ==> op.kind == Match || op.kind == Update
    ensures PresenceReported(ctx, refs, op) ==> op.kind == Delete || op.kind == Insert
    ensures MoveReported(ctx, op) ==> op.kind == Move
    ensures ReorderReported(ctx, op) ==> op.kind == Reorder
  {
  }
}
