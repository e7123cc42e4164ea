/** The tree aligner: one region per pair of corresponding parents. */
module Aligner {
  import opened Options
  import opened Ordering
  import opened Trees
  import opened Profiles
  import opened Matches
  import opened Alignment
  import opened Regions
  import Matcher

  /** Python's rendering of a match id, the key by which ids are sorted. */
  function Render(id: MatchId): string
  {
    "m:" + Arrow(id)
  }

  predicate RenderedNotAbove(a: MatchId, b: MatchId)
  {
    !Below(Render(b), Render(a))
  }

  lemma RenderedOrder()
    ensures TotalPreorder(RenderedNotAbove)
  {
    forall a, b, c
      ensures RenderedNotAbove(a, b) || RenderedNotAbove(b, a)
      ensures RenderedNotAbove(a, b) && RenderedNotAbove(b, c) ==> RenderedNotAbove(a, c)
    {
      BelowTotal(Render(a), Render(b));
      BelowTotal(Render(b), Render(c));
      BelowTotal(Render(a), Render(c));
      if Below(Render(c), Render(a)) && Below(Render(a), Render(b)) {
        BelowTransitive(Render(c), Render(a), Render(b));
      }
    }
  }

  function EndOf(c: MatchCandidate, onSource: bool): NodeRef
  {
    if onSource then c.source else c.target
  }

  /** `id` is an ambiguous candidate at `ref`. */
  ghost predicate Touches(cs: seq<MatchCandidate>, onSource: bool, ref: NodeRef, id: MatchId)
  {
    exists c :: c in cs && c.Id() == id && EndOf(c, onSource) == ref
  }

  /** Every unsettled node on an ambiguous edge, with all its ambiguous ids in rendered order. */
  ghost predicate IsAmbiguousIndex(cs: seq<MatchCandidate>, onSource: bool, settled: set<NodeRef>,
                                   index: AmbiguousIndex)
  {
    (forall ref :: ref in index ==> ref !in settled && index[ref] != [] && OrderedBy(RenderedNotAbove, index[ref])) &&
    (forall ref, id :: ref in index ==> (id in index[ref] <==> Touches(cs, onSource, ref, id))) &&
    forall c :: c in cs && EndOf(c, onSource) !in settled ==> EndOf(c, onSource) in index
  }

  /** Group ids by node; a settled node is never listed. */
  method GroupByEnd(cs: seq<MatchCandidate>, onSource: bool, settled: set<NodeRef>) returns (index: AmbiguousIndex)
    ensures forall ref :: ref in index ==> ref !in settled && index[ref] != []
    ensures forall ref, id :: ref in index ==> (id in index[ref] <==> Touches(cs, onSource, ref, id))
    ensures forall c :: c in cs && EndOf(c, onSource) !in settled ==> EndOf(c, onSource) in index
  {
    index := map[];
    ghost var done: seq<MatchCandidate> := [];
    for i := 0 to |cs|
      invariant done == cs[..i]
      invariant forall ref :: ref in index ==> ref !in settled && index[ref] != []
      invariant forall ref, id :: ref in index ==> (id in index[ref] <==> Touches(done, onSource, ref, id))
      invariant forall ref :: ref !in index ==> ref in settled || forall id :: !Touches(done, onSource, ref, id)
      invariant forall c :: c in done && EndOf(c, onSource) !in settled ==> EndOf(c, onSource) in index
    {
      var c := cs[i];
      var at := EndOf(c, onSource);
      ghost var before := done;
      done := done + [c];
      forall ref, id
        ensures Touches(done, onSource, ref, id) <==> Touches(before, onSource, ref, id) || (ref == at && id == c.Id())
      {
        if ref == at && id == c.Id() { assert c in done; }
      }
      if at in settled {
        continue;
      }
      index := index[at := (if at in index then index[at] else []) + [c.Id()]];
    }
    assert cs[..|cs|] == cs;
  }

  method AmbiguousIndexOf(cs: seq<MatchCandidate>, onSource: bool, settled: set<NodeRef>)
    returns (index: AmbiguousIndex)
    ensures IsAmbiguousIndex(cs, onSource, settled, index)
  {
    var grouped := GroupByEnd(cs, onSource, settled);
    RenderedOrder();
    index := map[];
    var rest := grouped.Keys;
    while rest != {}
      invariant rest <= grouped.Keys && index.Keys == grouped.Keys - rest
      invariant forall ref :: ref in index ==> OrderedBy(RenderedNotAbove, index[ref]) && index[ref] != []
      invariant forall ref, id :: ref in index ==> (id in index[ref] <==> id in grouped[ref])
    {
      var ref :| ref in rest;
      var ids := Sort(RenderedNotAbove, grouped[ref]);
      assert |ids| == |grouped[ref]|;
      index := index[ref := ids];
      rest := rest - {ref};
    }
  }

  // ---------------------------------------------------------------- the whole alignment

  datatype AlignInput = AlignInput(source: Tree, target: Tree, graph: MatchGraph, profile: AlignmentProfile)
  {
    /** The graph speaks of nodes of the two trees. */
    ghost predicate Refers()
    {
      source.root in source.nodes && target.root in target.nodes &&
      forall s, t :: graph.Pairs(s, t) ==> s in source.nodes && t in target.nodes
    }

    /** Corresponding parents: the two roots, or a confirmed pair. */
    ghost predicate Heads(sp: NodeRef, tp: NodeRef)
    {
      (sp == source.root && tp == target.root) || graph.Pairs(sp, tp)
    }

    /** Two parent pairs whose string forms are the same. */
    ghost predicate Collides()
    {
      exists a: MatchId, b: MatchId {:trigger Arrow(a), Arrow(b)} ::
        a != b && Heads(a.source, a.target) && Heads(b.source, b.target) && Arrow(a) == Arrow(b)
    }

    function Partners(): Partner
    {
      s => graph.ConfirmedTargetFor(s)
    }

    ghost predicate SourceIndex(index: AmbiguousIndex)
    {
      IsAmbiguousIndex(WithState(graph.candidates, Ambiguous), true,
                       set c | c in graph.candidates && c.state == Confirmed :: c.source, index)
    }

    ghost predicate TargetIndex(index: AmbiguousIndex)
    {
      IsAmbiguousIndex(WithState(graph.candidates, Ambiguous), false,
                       set c | c in graph.candidates && c.state == Confirmed :: c.target, index)
    }

    ghost predicate Describes(r: Region, ambS: AmbiguousIndex, ambT: AmbiguousIndex)
      requires Refers()
    {
      Heads(r.sourceParent, r.targetParent) &&
      IsRegion(r, source.nodes[r.sourceParent].children, target.nodes[r.targetParent].children, Partners(),
               profile.OrderedFor(source.nodes[r.sourceParent].nodeType), ambS, ambT)
    }

    ghost predicate IsAlignment(a: AlignmentResult, ambS: AmbiguousIndex, ambT: AmbiguousIndex)
      requires Refers()
    {
      SourceIndex(ambS) && TargetIndex(ambT) &&
      (forall i {:trigger Describes(a.regions[i], ambS, ambT)} :: 0 <= i < |a.regions| ==>
        Describes(a.regions[i], ambS, ambT)) &&
      (forall sp, tp {:trigger HasRegion(a, sp, tp)} :: Heads(sp, tp) ==> HasRegion(a, sp, tp)) &&
      (forall i, j {:trigger Matcher.PairBelow(a.regions[i].Id(), a.regions[j].Id())} ::
        0 <= i < j < |a.regions| ==> Matcher.PairBelow(a.regions[i].Id(), a.regions[j].Id())) &&
      a.unresolvedIds == UnresolvedIds(a.regions, |a.regions|)
    }
  }

  ghost predicate HasRegion(a: AlignmentResult, sp: NodeRef, tp: NodeRef)
  {
    exists i :: 0 <= i < |a.regions| && a.regions[i].sourceParent == sp && a.regions[i].targetParent == tp
  }

  function UnresolvedIds(regions: seq<Region>, k: nat): seq<MatchId>
    requires k <= |regions|
    decreases k
  {
    if k == 0 then []
    else UnresolvedIds(regions, k - 1) + if regions[k - 1].unresolved then [regions[k - 1].Id()] else []
  }

  /** The roots first, then each confirmed pair not yet listed. */
  method ParentPairs(x: AlignInput) returns (pairs: seq<MatchId>)
    ensures Distinct(pairs)
    ensures forall id :: id in pairs <==> x.Heads(id.source, id.target)
  {
    var confirmed := WithState(x.graph.candidates, Confirmed);
    pairs := [MatchId(x.source.root, x.target.root)];
    for i := 0 to |confirmed|
      invariant Distinct(pairs)
      invariant forall id :: id in pairs <==>
        id == MatchId(x.source.root, x.target.root) || exists j :: 0 <= j < i && confirmed[j].Id() == id
    {
      if confirmed[i].Id() !in pairs {
        pairs := pairs + [confirmed[i].Id()];
      }
    }
    forall id
      ensures id in pairs <==> x.Heads(id.source, id.target)
    {
      if exists j :: 0 <= j < |confirmed| && confirmed[j].Id() == id {
        var j :| 0 <= j < |confirmed| && confirmed[j].Id() == id;
        assert confirmed[j] in confirmed;
      }
      if x.graph.Pairs(id.source, id.target) {
        var c :| c in x.graph.candidates && c.state == Confirmed && c.source == id.source && c.target == id.target;
        assert c in confirmed;
        var j :| 0 <= j < |confirmed| && confirmed[j] == c;
        assert confirmed[j].Id() == id;
      }
    }
  }

  /** `align`: a region for the roots and for every confirmed pair, in reference order; a repeated region id raises. */
  method Align(x: AlignInput)
    returns (r: Result<AlignmentResult, string>, ghost ambS: AmbiguousIndex, ghost ambT: AmbiguousIndex)
    requires x.Refers()
    ensures r.Ok? ==> x.IsAlignment(r.value, ambS, ambT) && r.value.WellFormed()
    ensures r.Err? <==> x.Collides()
  {
    var a;
    a, ambS, ambT := AlignParents(x);
    var named := CheckNames(a.regions);
    AlignmentIsWellFormedIff(x, a, ambS, ambT);
    if named {
      WellFormedIfNamed(x, a, ambS, ambT);
      r := Ok(a);
    } else {
      r := Err("aligned region ids must be unique");
    }
  }

  method AlignParents(x: AlignInput)
    returns (a: AlignmentResult, ghost ambS: AmbiguousIndex, ghost ambT: AmbiguousIndex)
    requires x.Refers()
    ensures x.IsAlignment(a, ambS, ambT)
  {
    var settledSources := set c | c in x.graph.candidates && c.state == Confirmed :: c.source;
    var settledTargets := set c | c in x.graph.candidates && c.state == Confirmed :: c.target;
    var ambiguous := WithState(x.graph.candidates, Ambiguous);
    var ambiguousSources := AmbiguousIndexOf(ambiguous, true, settledSources);
    var ambiguousTargets := AmbiguousIndexOf(ambiguous, false, settledTargets);
    var pairs := ParentPairs(x);
    Matcher.PairTotalPreorder();
    var parents := Sort(Matcher.PairNotAbove, pairs);
    var regions, unresolved := AlignAll(x, parents, ambiguousSources, ambiguousTargets);
    a := AlignmentResult(regions, unresolved);
    ambS, ambT := ambiguousSources, ambiguousTargets;
    forall i, j | 0 <= i < j < |regions|
      ensures Matcher.PairBelow(regions[i].Id(), regions[j].Id())
    {
      assert Matcher.PairNotAbove(parents[i], parents[j]);
    }
    forall sp, tp | x.Heads(sp, tp)
      ensures HasRegion(a, sp, tp)
    {
      assert MatchId(sp, tp) in parents;
      var i :| 0 <= i < |parents| && parents[i] == MatchId(sp, tp);
      assert regions[i].Id() == parents[i];
    }
  }

  method AlignAll(x: AlignInput, parents: seq<MatchId>, ambS: AmbiguousIndex, ambT: AmbiguousIndex)
    returns (regions: seq<Region>, unresolved: seq<MatchId>)
    requires x.Refers() && forall id :: id in parents ==> x.Heads(id.source, id.target)
    ensures |regions| == |parents| && forall i :: 0 <= i < |regions| ==> regions[i].Id() == parents[i]
    ensures forall i :: 0 <= i < |regions| ==> x.Describes(regions[i], ambS, ambT)
    ensures unresolved == UnresolvedIds(regions, |regions|)
  {
    regions := [];
    for i := 0 to |parents|
      invariant |regions| == i && forall j :: 0 <= j < i ==> regions[j].Id() == parents[j]
      invariant forall j :: 0 <= j < i ==> x.Describes(regions[j], ambS, ambT)
    {
      var sp, tp := parents[i].source, parents[i].target;
      assert parents[i] in parents;
      var region := AlignChildren(sp, tp, x.source.nodes[sp].children, x.target.nodes[tp].children, x.Partners(),
                                  x.profile.OrderedFor(x.source.nodes[sp].nodeType), ambS, ambT);
      assert x.Describes(region, ambS, ambT);
      regions := regions + [region];
    }
    unresolved := ListUnresolved(regions);
  }

  method ListUnresolved(regions: seq<Region>) returns (unresolved: seq<MatchId>)
    ensures unresolved == UnresolvedIds(regions, |regions|)
  {
    unresolved := [];
    for i := 0 to |regions|
      invariant unresolved == UnresolvedIds(regions, i)
    {
      if regions[i].unresolved {
        unresolved := unresolved + [regions[i].Id()];
      }
    }
  }

  // ---------------------------------------------------------------- the contracts of the result

  lemma {:induction false} UnresolvedIdsAre(regions: seq<Region>, k: nat)
    requires k <= |regions| && forall i, j :: 0 <= i < j < |regions| ==> regions[i].Id() != regions[j].Id()
    ensures Distinct(UnresolvedIds(regions, k))
    ensures forall id :: id in UnresolvedIds(regions, k) <==>
      exists i :: 0 <= i < k && regions[i].unresolved && regions[i].Id() == id
  {
    if k > 0 {
      UnresolvedIdsAre(regions, k - 1);
      assert regions[k - 1].Id() !in UnresolvedIds(regions, k - 1);
    }
  }

  lemma RegionIdsDiffer(x: AlignInput, a: AlignmentResult, ambS: AmbiguousIndex, ambT: AmbiguousIndex, i: nat, j: nat)
    requires x.Refers() && x.IsAlignment(a, ambS, ambT) && i < j < |a.regions|
    ensures a.regions[i].Id() != a.regions[j].Id()
  {
    assert Matcher.PairBelow(a.regions[i].Id(), a.regions[j].Id());
    Matcher.PairOrder(a.regions[i].Id(), a.regions[j].Id(), a.regions[j].Id());
  }

  lemma RegionWellFormed(r: Region, scs: seq<NodeRef>, tcs: seq<NodeRef>, partner: Partner, ordered: bool,
                         ambS: AmbiguousIndex, ambT: AmbiguousIndex)
    requires IsRegion(r, scs, tcs, partner, ordered, ambS, ambT)
    ensures r.WellFormed()
  {
    forall p | p in r.pairs
      ensures p.WellFormed()
    {
      PositionsAre(scs, tcs, partner, ambS, ambT, p);
    }
  }

  lemma WellFormedIfNamed(x: AlignInput, a: AlignmentResult, ambS: AmbiguousIndex, ambT: AmbiguousIndex)
    requires x.Refers() && x.IsAlignment(a, ambS, ambT) && NamesDiffer(a.regions)
    ensures a.WellFormed()
  {
    forall i, j | 0 <= i < j < |a.regions|
      ensures a.regions[i].Id() != a.regions[j].Id()
    {
      RegionIdsDiffer(x, a, ambS, ambT, i, j);
    }
    UnresolvedIdsAre(a.regions, |a.regions|);
    forall id
      ensures id in a.unresolvedIds <==> exists r :: r in a.regions && r.unresolved && r.Id() == id
    {
      if r: Region :| r in a.regions && r.unresolved && r.Id() == id {
        var i :| 0 <= i < |a.regions| && a.regions[i] == r;
      }
    }
    forall i | 0 <= i < |a.regions|
      ensures a.regions[i].WellFormed()
    {
      var r := a.regions[i];
      assert x.Describes(r, ambS, ambT);
      RegionWellFormed(r, x.source.nodes[r.sourceParent].children, x.target.nodes[r.targetParent].children,
                       x.Partners(), x.profile.OrderedFor(x.source.nodes[r.sourceParent].nodeType), ambS, ambT);
    }
  }

  /**
   * The alignment passes its validators (unique region ids, unresolved regions marked and listed)
   * exactly when no two parent pairs share a string form.
   */
  lemma AlignmentIsWellFormedIff(x: AlignInput, a: AlignmentResult, ambS: AmbiguousIndex, ambT: AmbiguousIndex)
    requires x.Refers() && x.IsAlignment(a, ambS, ambT)
    ensures a.WellFormed() <==> !x.Collides()
  {
    if x.Collides() {
      var p: MatchId, q: MatchId :| p != q && x.Heads(p.source, p.target) && x.Heads(q.source, q.target) &&
        Arrow(p) == Arrow(q);
      assert HasRegion(a, p.source, p.target) && HasRegion(a, q.source, q.target);
      var i :| 0 <= i < |a.regions| && a.regions[i].Id() == p;
      var j :| 0 <= j < |a.regions| && a.regions[j].Id() == q;
      NameIsArrow(a.regions[i], a.regions[j]);
      assert i < j || j < i;
    } else {
      forall i, j | 0 <= i < j < |a.regions|
        ensures a.regions[i].Name() != a.regions[j].Name()
      {
        RegionIdsDiffer(x, a, ambS, ambT, i, j);
        NameIsArrow(a.regions[i], a.regions[j]);
        assert x.Describes(a.regions[i], ambS, ambT) && x.Describes(a.regions[j], ambS, ambT);
      }
      WellFormedIfNamed(x, a, ambS, ambT);
    }
  }

  /** Source handles without an arrow keep all region ids apart. */
  lemma ArrowFreeNeverCollides(x: AlignInput)
    requires x.Refers() && forall n :: n in x.source.nodes ==> !HasArrow(n)
    ensures !x.Collides()
  {
    forall p: MatchId, q: MatchId | x.Heads(p.source, p.target) && x.Heads(q.source, q.target) && Arrow(p) == Arrow(q)
      ensures p == q
    {
      ArrowInjective(p, q);
    }
  }
}
