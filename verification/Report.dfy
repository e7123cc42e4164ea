/** What the localized report lists, status by status, said over the run it interprets. */
module Report {
  import opened Options
  import opened Ordering
  import opened Trees
  import opened Profiles
  import opened Matches
  import opened Operations
  import opened Diagnosis
  import opened Guarantees
  import opened Pipeline
  import opened Records
  import opened Localization
  import opened Presence

  // ---------------------------------------------------------------- confirmed pairs

  /** A confirmed candidate of a non-root source node. */
  ghost predicate Interpreted(r: Run, c: MatchCandidate)
  {
    c in r.x.graph.candidates && c.state == Confirmed && c.source != r.x.source.root
  }

  /**
   * A moved node is under a wrong parent, with its MOVE; otherwise its translation is stale, or the match
   * is confirmed or probable as its confidence reaches the threshold.
   */
  ghost predicate IsPairFinding(x: Interpretation, r: Run, c: MatchCandidate, f: Finding)
    requires c.source in x.source.nodes && c.target in x.locale.nodes
  {
    f.source == Some(c.source) && f.locale == Some(c.target) && f.matchIds == [MatchId(c.source, c.target)] &&
    if r.Emits(MoveId(c.source, c.target)) then
      f.status == WrongParent && f.operationIds == [MoveId(c.source, c.target)]
    else
      f.operationIds == [] &&
      if x.stale(x.source.nodes[c.source], x.locale.nodes[c.target]) then f.status == SourceUpdated
      else if c.confidence >= x.threshold then f.status == ConfirmedMatch
      else f.status == ProbableMatch
  }

  ghost predicate Names(f: Finding, s: NodeRef, t: NodeRef)
  {
    f.source == Some(s) && f.locale == Some(t)
  }

  lemma InterpretedIsPair(x: Interpretation, r: Run, c: MatchCandidate)
    requires Of(x, r) && r.Sound() && Interpreted(r, c)
    ensures r.x.graph.Pairs(c.source, c.target) && c.source in x.source.nodes && c.target in x.locale.nodes
    ensures x.source.nodes[c.source].parent.Some?
  {
    assert r.x.graph.Pairs(c.source, c.target);
    NonRootHasParent(r.x.source, c.source);
  }

  lemma MoveOfPair(r: Run, op: StructuralOperation, s: NodeRef, t: NodeRef)
    requires r.Sound() && op in r.ops && r.x.graph.Pairs(s, t)
    ensures op.kind == Move && s in op.sources <==> op.id == MoveId(s, t)
  {
    OperationsHold(r, op);
    if op.id.MoveId? && op.id.source == s { OnlyPartner(r, s, t); }
  }

  /** The index knows a source exactly if its MOVE was emitted, and then it holds that MOVE. */
  lemma IndexedIffMoved(x: Interpretation, r: Run, moves: MoveIndex, s: NodeRef, t: NodeRef)
    requires Of(x, r) && r.Sound() && IsMoveIndex(x.ops, moves) && r.x.graph.Pairs(s, t)
    ensures s in moves <==> r.Emits(MoveId(s, t))
    ensures s in moves ==> moves[s].id == MoveId(s, t)
  {
    if s in moves { MoveOfPair(r, moves[s], s, t); }
    if op: StructuralOperation :| op in r.ops && op.id == MoveId(s, t) { MoveOfPair(r, op, s, t); }
  }

  lemma ConfirmedFindingIs(x: Interpretation, r: Run, moves: MoveIndex, c: MatchCandidate)
    requires Of(x, r) && r.Sound() && IsMoveIndex(x.ops, moves) && Interpreted(r, c)
    ensures c.source in x.source.nodes && c.target in x.locale.nodes
    ensures ConfirmedFinding(x, moves, c).Some? && IsPairFinding(x, r, c, ConfirmedFinding(x, moves, c).value)
  {
    InterpretedIsPair(x, r, c);
    IndexedIffMoved(x, r, moves, c.source, c.target);
    FindingOfPair(x, r, moves, c);
  }

  lemma FindingOfPair(x: Interpretation, r: Run, moves: MoveIndex, c: MatchCandidate)
    requires c.source in x.source.nodes && c.target in x.locale.nodes && x.source.nodes[c.source].parent.Some?
    requires c.source in moves <==> r.Emits(MoveId(c.source, c.target))
    requires c.source in moves ==> moves[c.source].id == MoveId(c.source, c.target)
    ensures ConfirmedFinding(x, moves, c).Some? && IsPairFinding(x, r, c, ConfirmedFinding(x, moves, c).value)
  {
  }

  lemma RawSplits(x: Interpretation, moves: MoveIndex, refs: seq<NodeRef>, f: Finding)
    ensures f in RawFindings(x, moves, refs) <==>
      f in ConfirmedPart(x, moves) || f in AmbiguousPart(x, refs) || f in ReorderPart(x) || f in PresencePart(x) ||
      (f == CONFLICT && x.conflicts > 0)
  {
    var conflicts := seq(x.conflicts, i requires 0 <= i < x.conflicts => CONFLICT);
    if x.conflicts > 0 { assert conflicts[0] == CONFLICT; }
    assert f in conflicts <==> f == CONFLICT && x.conflicts > 0;
  }

  lemma InConfirmedPart(x: Interpretation, moves: MoveIndex, f: Finding)
    requires f in ConfirmedPart(x, moves)
    ensures f.source.Some? && f.locale.Some?
    ensures f.status in {WrongParent, SourceUpdated, ConfirmedMatch, ProbableMatch}
  {
    Gathers((c: MatchCandidate) => ConfirmedFinding(x, moves, c), WithState(x.graph.candidates, Confirmed), f);
  }

  lemma InAmbiguousPart(x: Interpretation, refs: seq<NodeRef>, f: Finding)
    requires f in AmbiguousPart(x, refs)
    ensures f.locale == None && f.status == AmbiguousMatch
  {
    Gathers((s: NodeRef) => AmbiguousFinding(x, s), refs, f);
  }

  lemma InReorderPart(x: Interpretation, f: Finding)
    requires f in ReorderPart(x)
    ensures f.locale == None && f.status == WrongOrder
  {
    Gathers(ReorderFinding, x.ops, f);
  }

  lemma InPresencePart(x: Interpretation, f: Finding)
    requires f in PresencePart(x)
    ensures IsPresence(f.status) && (f.source == None || f.locale == None)
  {
    Gathers((op: StructuralOperation) => PresenceFinding(x, op), x.ops, f);
  }

  /** The status of a finding tells the part of the list it is in. */
  lemma PartByStatus(x: Interpretation, moves: MoveIndex, refs: seq<NodeRef>, f: Finding)
    ensures f.source.Some? && f.locale.Some? ==>
      (f in RawFindings(x, moves, refs) <==> f in ConfirmedPart(x, moves))
    ensures f.status == AmbiguousMatch ==> (f in RawFindings(x, moves, refs) <==> f in AmbiguousPart(x, refs))
    ensures f.status == WrongOrder ==> (f in RawFindings(x, moves, refs) <==> f in ReorderPart(x))
    ensures IsPresence(f.status) ==> (f in RawFindings(x, moves, refs) <==> f in PresencePart(x))
  {
    RawSplits(x, moves, refs, f);
    if f in ConfirmedPart(x, moves) { InConfirmedPart(x, moves, f); }
    if f in AmbiguousPart(x, refs) { InAmbiguousPart(x, refs, f); }
    if f in ReorderPart(x) { InReorderPart(x, f); }
    if f in PresencePart(x) { InPresencePart(x, f); }
  }

  lemma OneCandidate(g: MatchGraph, c: MatchCandidate, d: MatchCandidate)
    requires g.OneToOne() && c in g.candidates && d in g.candidates && c.state == Confirmed == d.state
    requires c.source == d.source
    ensures c == d
  {
    var i :| 0 <= i < |g.candidates| && g.candidates[i] == c;
    var j :| 0 <= j < |g.candidates| && g.candidates[j] == d;
    assert i == j;
  }

  lemma InConfirmedPartIff(x: Interpretation, moves: MoveIndex, f: Finding)
    ensures f in ConfirmedPart(x, moves) <==>
      exists d :: d in x.graph.candidates && d.state == Confirmed && ConfirmedFinding(x, moves, d) == Some(f)
  {
    var find := (d: MatchCandidate) => ConfirmedFinding(x, moves, d);
    Gathers(find, WithState(x.graph.candidates, Confirmed), f);
    if d :| d in x.graph.candidates && d.state == Confirmed && ConfirmedFinding(x, moves, d) == Some(f) {
      assert d in WithState(x.graph.candidates, Confirmed) && find(d) == Some(f);
    }
    if d :| d in WithState(x.graph.candidates, Confirmed) && find(d) == Some(f) {
      assert ConfirmedFinding(x, moves, d) == Some(f);
    }
  }

  /** The list names a confirmed non-root pair in exactly one finding, which is the one the pair calls for. */
  lemma PairIsListed(x: Interpretation, r: Run, moves: MoveIndex, refs: seq<NodeRef>, c: MatchCandidate, f: Finding)
    requires Of(x, r) && r.Sound() && IsMoveIndex(x.ops, moves) && Interpreted(r, c)
    ensures c.source in x.source.nodes && c.target in x.locale.nodes
    ensures f in RawFindings(x, moves, refs) && Names(f, c.source, c.target) <==> IsPairFinding(x, r, c, f)
  {
    ConfirmedFindingIs(x, r, moves, c);
    if Names(f, c.source, c.target) {
      PartByStatus(x, moves, refs, f);
      InConfirmedPartIff(x, moves, f);
      if d :| d in x.graph.candidates && d.state == Confirmed && ConfirmedFinding(x, moves, d) == Some(f) {
        FoundFor(x, moves, d, f);
        OneCandidate(r.x.graph, c, d);
      }
      if IsPairFinding(x, r, c, f) { OneFinding(x, r, c, f, ConfirmedFinding(x, moves, c).value); }
    }
  }

  lemma FoundFor(x: Interpretation, moves: MoveIndex, d: MatchCandidate, f: Finding)
    requires ConfirmedFinding(x, moves, d) == Some(f)
    ensures f.source == Some(d.source)
  {
  }

  lemma OneFinding(x: Interpretation, r: Run, c: MatchCandidate, f: Finding, g: Finding)
    requires c.source in x.source.nodes && c.target in x.locale.nodes
    requires IsPairFinding(x, r, c, f) && IsPairFinding(x, r, c, g)
    ensures f == g
  {
  }

  /** No two positions of a list name the pair. */
  ghost predicate NamedOnce(fs: seq<Finding>, s: NodeRef, t: NodeRef)
  {
    forall i, j | 0 <= i < j < |fs| :: !Names(fs[i], s, t) || !Names(fs[j], s, t)
  }

  ghost predicate Unnamed(fs: seq<Finding>, s: NodeRef, t: NodeRef)
  {
    forall i :: 0 <= i < |fs| ==> !Names(fs[i], s, t)
  }

  lemma NamedOnceJoin(a: seq<Finding>, b: seq<Finding>, s: NodeRef, t: NodeRef)
    requires NamedOnce(a, s, t) && NamedOnce(b, s, t) && (Unnamed(a, s, t) || Unnamed(b, s, t))
    ensures NamedOnce(a + b, s, t)
  {
    forall i, j | 0 <= i < j < |a + b|
      ensures !Names((a + b)[i], s, t) || !Names((a + b)[j], s, t)
    {
      if j < |a| {
        assert (a + b)[i] == a[i] && (a + b)[j] == a[j];
      } else if i >= |a| {
        assert (a + b)[i] == b[i - |a|] && (a + b)[j] == b[j - |a|];
      }
    }
  }

  lemma PairIsListedOnce(x: Interpretation, r: Run, moves: MoveIndex, refs: seq<NodeRef>, c: MatchCandidate)
    requires Of(x, r) && r.Sound() && Interpreted(r, c)
    ensures NamedOnce(RawFindings(x, moves, refs), c.source, c.target)
  {
    NamedOnceInPart(x, moves, c.source, c.target);
    RestIsUnnamed(x, refs, c.source, c.target);
    NamedOnceJoin(ConfirmedPart(x, moves), Rest(x, refs), c.source, c.target);
    RawIsJoined(x, moves, refs);
  }

  lemma RawIsJoined(x: Interpretation, moves: MoveIndex, refs: seq<NodeRef>)
    ensures RawFindings(x, moves, refs) == ConfirmedPart(x, moves) + Rest(x, refs)
  {
    Regroup(ConfirmedPart(x, moves), AmbiguousPart(x, refs), ReorderPart(x), PresencePart(x),
            seq(x.conflicts, i requires 0 <= i < x.conflicts => CONFLICT));
  }

  lemma Regroup<T>(a: seq<T>, b: seq<T>, c: seq<T>, d: seq<T>, e: seq<T>)
    ensures a + b + c + d + e == a + (b + c + d + e)
  {
  }

  lemma RestIsUnnamed(x: Interpretation, refs: seq<NodeRef>, s: NodeRef, t: NodeRef)
    ensures Unnamed(Rest(x, refs), s, t)
  {
    forall k | 0 <= k < |Rest(x, refs)|
      ensures !Names(Rest(x, refs)[k], s, t)
    {
      RestNamesNoPair(x, refs, Rest(x, refs)[k]);
    }
  }

  lemma NamedOnceInPart(x: Interpretation, moves: MoveIndex, s: NodeRef, t: NodeRef)
    requires x.graph.OneToOne()
    ensures NamedOnce(ConfirmedPart(x, moves), s, t)
  {
    var find := (d: MatchCandidate) => ConfirmedFinding(x, moves, d);
    var confirmed := WithState(x.graph.candidates, Confirmed);
    ConfirmedApart(x.graph.candidates);
    GatheredOnce(find, confirmed, |confirmed|, s, t);
  }

  ghost function Rest(x: Interpretation, refs: seq<NodeRef>): seq<Finding>
  {
    AmbiguousPart(x, refs) + ReorderPart(x) + PresencePart(x) +
    seq(x.conflicts, i requires 0 <= i < x.conflicts => CONFLICT)
  }

  lemma RestNamesNoPair(x: Interpretation, refs: seq<NodeRef>, f: Finding)
    requires f in Rest(x, refs)
    ensures f.source == None || f.locale == None
  {
    if f in AmbiguousPart(x, refs) {
      InAmbiguousPart(x, refs, f);
    } else if f in ReorderPart(x) {
      InReorderPart(x, f);
    } else if f in PresencePart(x) {
      InPresencePart(x, f);
    }
  }

  /** Confirmed candidates of a one-to-one graph at two positions have different sources. */
  ghost predicate SourcesApart(cs: seq<MatchCandidate>)
  {
    forall i, j :: 0 <= i < j < |cs| ==> cs[i].source != cs[j].source
  }

  lemma {:induction false} ConfirmedApart(cs: seq<MatchCandidate>)
    requires forall i, j | 0 <= i < j < |cs| :: Compatible(cs[i], cs[j])
    ensures SourcesApart(WithState(cs, Confirmed))
  {
    if cs != [] {
      var rest := cs[1..];
      forall i, j | 0 <= i < j < |rest|
        ensures Compatible(rest[i], rest[j])
      {
        assert Compatible(cs[i + 1], cs[j + 1]);
      }
      ConfirmedApart(rest);
      forall d | d in WithState(rest, Confirmed) && cs[0].state == Confirmed
        ensures d.source != cs[0].source
      {
        var k :| 0 <= k < |rest| && rest[k] == d;
        assert Compatible(cs[0], cs[k + 1]);
      }
    }
  }

  lemma {:induction false} GatheredOnce(find: MatchCandidate -> Option<Finding>, cs: seq<MatchCandidate>, k: nat,
                                        s: NodeRef, t: NodeRef)
    requires k <= |cs| && SourcesApart(cs)
    requires forall c :: find(c).Some? ==> find(c).value.source == Some(c.source)
    ensures NamedOnce(Gathered(find, cs, k), s, t)
  {
    if k > 0 {
      GatheredOnce(find, cs, k - 1, s, t);
      var before := Gathered(find, cs, k - 1);
      if find(cs[k - 1]).Some? {
        if s == cs[k - 1].source { GatheredElsewhere(find, cs, k - 1, s, t); }
        NamedOnceJoin(before, [find(cs[k - 1]).value], s, t);
      } else {
        assert before + [] == before;
      }
    }
  }

  lemma {:induction false} GatheredElsewhere(find: MatchCandidate -> Option<Finding>, cs: seq<MatchCandidate>, k: nat,
                                             s: NodeRef, t: NodeRef)
    requires k < |cs| && SourcesApart(cs) && cs[k].source == s
    requires forall c :: find(c).Some? ==> find(c).value.source == Some(c.source)
    ensures Unnamed(Gathered(find, cs, k), s, t)
  {
    var fs := Gathered(find, cs, k);
    forall i | 0 <= i < |fs|
      ensures !Names(fs[i], s, t)
    {
      assert fs[i] in fs;
      GatheredAre(find, cs, k, fs[i]);
      var j :| 0 <= j < k && find(cs[j]) == Some(fs[i]);
      assert cs[j].source != cs[k].source;
    }
  }

  // ---------------------------------------------------------------- presence

  lemma PresenceListed(x: Interpretation, r: Run, moves: MoveIndex, refs: seq<NodeRef>, f: Finding)
    requires Of(x, r) && r.Sound() && IsPresence(f.status)
    ensures f in RawFindings(x, moves, refs) <==> exists op :: op in r.ops && PresenceFinding(x, op) == Some(f)
  {
    PartByStatus(x, moves, refs, f);
    var find := (op: StructuralOperation) => PresenceFinding(x, op);
    Gathers(find, x.ops, f);
    if op :| op in r.ops && PresenceFinding(x, op) == Some(f) { assert find(op) == Some(f); }
    if op :| op in x.ops && find(op) == Some(f) { assert PresenceFinding(x, op) == Some(f); }
  }

  /** The finding for a node that is on one side only, with the operation behind it. */
  ghost predicate IsAbsence(x: Interpretation, f: Finding, s: NodeRef)
    requires s in x.source.nodes
  {
    f == Finding(if x.exempt(Delete, x.source.nodes[s].nodeType) then ExemptLocaleVariation else MissingInLocale,
                 Some(s), None, [], [DeleteId(s)])
  }

  ghost predicate IsSurplus(x: Interpretation, f: Finding, t: NodeRef)
    requires t in x.locale.nodes
  {
    f == Finding(if x.exempt(Insert, x.locale.nodes[t].nodeType) then ExemptLocaleVariation else ExtraInLocale,
                 None, Some(t), [], [InsertId(t)])
  }

  lemma AbsenceFound(x: Interpretation, op: StructuralOperation, s: NodeRef)
    requires op.kind == Delete && op.id == DeleteId(s) && op.sources == [s] && s in x.source.nodes
    ensures PresenceFinding(x, op).Some? && IsAbsence(x, PresenceFinding(x, op).value, s)
  {
  }

  lemma SurplusFound(x: Interpretation, op: StructuralOperation, t: NodeRef)
    requires op.kind == Insert && op.id == InsertId(t) && op.targets == [t] && t in x.locale.nodes
    ensures PresenceFinding(x, op).Some? && IsSurplus(x, PresenceFinding(x, op).value, t)
  {
  }

  lemma OneSidedRecord(r: Run, op: StructuralOperation)
    requires r.Sound() && op in r.ops
    ensures op.kind == Delete <==> op.id.DeleteId?
    ensures op.kind == Insert <==> op.id.InsertId?
    ensures op.id.DeleteId? ==> op.sources == [op.id.node]
    ensures op.id.InsertId? ==> op.targets == [op.id.node]
  {
    OperationsHold(r, op);
  }

  lemma PresenceFindingIs(x: Interpretation, r: Run, op: StructuralOperation)
    requires Of(x, r) && r.Sound() && op in r.ops
    ensures PresenceFinding(x, op).Some? <==> op.id.DeleteId? || op.id.InsertId?
    ensures op.id.DeleteId? ==>
      op.id.node in x.source.nodes && IsAbsence(x, PresenceFinding(x, op).value, op.id.node)
    ensures op.id.InsertId? ==>
      op.id.node in x.locale.nodes && IsSurplus(x, PresenceFinding(x, op).value, op.id.node)
  {
    OneSidedRecord(r, op);
    if op.id.DeleteId? {
      DeletedIsNode(r, op);
      AbsenceFound(x, op, op.id.node);
    } else if op.id.InsertId? {
      InsertedIsNode(r, op);
      SurplusFound(x, op, op.id.node);
    }
  }

  lemma DeletedIsNode(r: Run, op: StructuralOperation)
    requires r.Sound() && op in r.ops && op.id.DeleteId?
    ensures op.id.node in r.x.source.nodes
  {
    assert r.Emits(op.id);
    DeleteIff(r, op.id.node);
  }

  lemma InsertedIsNode(r: Run, op: StructuralOperation)
    requires r.Sound() && op in r.ops && op.id.InsertId?
    ensures op.id.node in r.x.target.nodes
  {
    assert r.Emits(op.id);
    InsertIff(r, op.id.node);
  }

  /** A source is listed as missing, or as exempt if its type is, exactly if its DELETE was emitted. */
  lemma AbsenceIff(x: Interpretation, r: Run, moves: MoveIndex, refs: seq<NodeRef>, s: NodeRef, f: Finding)
    requires Of(x, r) && r.Sound() && s in x.source.nodes && IsPresence(f.status) && f.source == Some(s)
    ensures f in RawFindings(x, moves, refs) <==> r.Emits(DeleteId(s)) && IsAbsence(x, f, s)
  {
    PresenceListed(x, r, moves, refs, f);
    if op :| op in r.ops && PresenceFinding(x, op) == Some(f) {
      PresenceFindingIs(x, r, op);
      assert op.id == DeleteId(s);
    }
    if op: StructuralOperation :| op in r.ops && op.id == DeleteId(s) { PresenceFindingIs(x, r, op); }
  }

  /** A target is listed as extra, or as exempt if its type is, exactly if its INSERT was emitted. */
  lemma SurplusIff(x: Interpretation, r: Run, moves: MoveIndex, refs: seq<NodeRef>, t: NodeRef, f: Finding)
    requires Of(x, r) && r.Sound() && t in x.locale.nodes && IsPresence(f.status) && f.locale == Some(t)
    ensures f in RawFindings(x, moves, refs) <==> r.Emits(InsertId(t)) && IsSurplus(x, f, t)
  {
    PresenceListed(x, r, moves, refs, f);
    if op :| op in r.ops && PresenceFinding(x, op) == Some(f) {
      PresenceFindingIs(x, r, op);
      assert op.id == InsertId(t);
    }
    if op: StructuralOperation :| op in r.ops && op.id == InsertId(t) { PresenceFindingIs(x, r, op); }
  }

  // ---------------------------------------------------------------- order and ambiguity

  /** One WRONG_ORDER finding per REORDER, about the first of the siblings it lists. */
  lemma WrongOrderIff(x: Interpretation, r: Run, moves: MoveIndex, refs: seq<NodeRef>, f: Finding)
    requires Of(x, r) && r.Sound() && f.status == WrongOrder
    ensures f in RawFindings(x, moves, refs) <==>
      exists op :: op in r.ops && op.id.ReorderId? && f == WrongOrderFor(op)
  {
    PartByStatus(x, moves, refs, f);
    Gathers(ReorderFinding, x.ops, f);
    if op :| op in r.ops && ReorderFinding(op) == Some(f) { ReorderIsFound(r, op); }
    if op :| op in r.ops && op.id.ReorderId? && f == WrongOrderFor(op) { ReorderIsFound(r, op); }
  }

  /** The finding about the first of the reordered siblings. */
  ghost function WrongOrderFor(op: StructuralOperation): Finding
  {
    Finding(WrongOrder, if op.sources == [] then None else Some(op.sources[0]), None, op.matchIds, [op.id])
  }

  lemma ReorderIsFound(r: Run, op: StructuralOperation)
    requires r.Sound() && op in r.ops
    ensures ReorderFinding(op).Some? <==> op.id.ReorderId?
    ensures op.id.ReorderId? ==> op.sources != [] && ReorderFinding(op) == Some(WrongOrderFor(op))
  {
    OperationsHold(r, op);
  }

  /** One AMBIGUOUS finding per source on an ambiguous edge, with the ids of all its edges. */
  lemma AmbiguousIff(x: Interpretation, moves: MoveIndex, refs: seq<NodeRef>, s: NodeRef, f: Finding)
    requires Sorts(refs, x.AmbiguousRefs()) && f.status == AmbiguousMatch && f.source == Some(s)
    requires f in RawFindings(x, moves, refs)
    ensures (exists t :: x.graph.AmbiguousEdge(s, t)) && f.locale == None && f.operationIds == []
    ensures forall id :: id in f.matchIds <==> id.source == s && x.graph.AmbiguousEdge(s, id.target)
  {
    PartByStatus(x, moves, refs, f);
    var find := (n: NodeRef) => AmbiguousFinding(x, n);
    Gathers(find, refs, f);
    var n :| n in refs && find(n) == Some(f);
    AmbiguousRefsAre(x, s);
    GroupIsEdges(x, s);
  }

  lemma GroupIsEdges(x: Interpretation, s: NodeRef)
    ensures forall id :: id in GroupIds(x.Ambiguous(), s, |x.Ambiguous()|) <==>
      id.source == s && x.graph.AmbiguousEdge(s, id.target)
  {
    var cs := x.Ambiguous();
    assert cs[..|cs|] == cs;
    forall id
      ensures id in GroupIds(cs, s, |cs|) <==> id.source == s && x.graph.AmbiguousEdge(s, id.target)
    {
      GroupIdsAre(cs, s, |cs|, id);
      if x.graph.AmbiguousEdge(s, id.target) && id.source == s {
        var c :| c in x.graph.candidates && c.state == MatchState.Ambiguous && c.source == s && c.target == id.target;
        assert c in cs && c.Id() == id;
      }
    }
  }

  // ---------------------------------------------------------------- the barrier

  /** The barrier drops exactly the presence findings about nodes on an ambiguous edge. */
  lemma DroppedIff(x: Interpretation, z: Reconciliation, f: Finding)
    requires z.Produced() && Of(x, z.run)
    ensures Contradicts(x, f) <==>
      (f.status == MissingInLocale && f.source.Some? && exists t :: x.graph.AmbiguousEdge(f.source.value, t)) ||
      (f.status == ExtraInLocale && f.locale.Some? && exists s :: x.graph.AmbiguousEdge(s, f.locale.value))
  {
    if f.source.Some? {
      HeldIsUncertain(x, z, f.source.value);
      EdgeIsUncertain(z, f.source.value);
    }
    if f.locale.Some? {
      HeldIsUncertain(x, z, f.locale.value);
      EdgeIsUncertain(z, f.locale.value);
    }
  }

  /** What is listed: every finding that is not dropped, numbered by its place before the barrier. */
  lemma ListedIff(x: Interpretation, moves: MoveIndex, refs: seq<NodeRef>, i: Issue)
    ensures var raw := RawFindings(x, moves, refs);
      i in Kept(x, Numbered(raw), |raw|) <==>
        1 <= i.number <= |raw| && i.finding == raw[i.number - 1] && !Contradicts(x, i.finding)
  {
    var raw := Numbered(RawFindings(x, moves, refs));
    KeptAre(x, raw, |raw|, i);
    assert raw[..|raw|] == raw;
    if 1 <= i.number <= |raw| && i.finding == RawFindings(x, moves, refs)[i.number - 1] {
      assert raw[i.number - 1] == i;
    }
  }
}
