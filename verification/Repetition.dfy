/** When an operation id occurs twice: only around a root that is confirmed to a non-root. */
module Repetition {
  import opened Options
  import opened Ordering
  import opened Trees
  import opened Profiles
  import opened Matches
  import opened Alignment
  import opened Aligner
  import opened Operations
  import opened Classification
  import opened Diagnosis
  import opened Regularity
  import opened Guarantees

  /** Two operations of the list carry the id. */
  ghost predicate NamedTwice(ops: seq<StructuralOperation>, id: OperationId)
  {
    exists i, j :: 0 <= i < j < |ops| && ops[i].id == id && ops[j].id == id
  }

  ghost predicate ReportedBoth(r: Run, id: OperationId, a: StructuralOperation, b: StructuralOperation)
  {
    a.id == id && b.id == id && Reports(r.Ctx(), r.refs, a) && Reports(r.Ctx(), r.refs, b) &&
    (a != b || ReportedTwice(r.Ctx(), r.refs, a))
  }

  ghost predicate Listed(ops: seq<StructuralOperation>, id: OperationId, a: StructuralOperation, b: StructuralOperation)
  {
    a in ops && b in ops && a.id == id && b.id == id && (a != b || multiset(ops)[a] >= 2)
  }

  lemma ListedTwice(ops: seq<StructuralOperation>, id: OperationId)
    ensures NamedTwice(ops, id) <==> exists a, b :: Listed(ops, id, a, b)
  {
    if i, j :| 0 <= i < j < |ops| && ops[i].id == id && ops[j].id == id {
      TwiceIff(ops, ops[i]);
      assert Listed(ops, id, ops[i], ops[j]);
    }
    if a, b :| Listed(ops, id, a, b) {
      TwiceIff(ops, a);
      if a != b {
        var i :| 0 <= i < |ops| && ops[i] == a;
        var j :| 0 <= j < |ops| && ops[j] == b;
        assert i < j || j < i;
      }
    }
  }

  lemma ListedIsReported(r: Run, id: OperationId, a: StructuralOperation, b: StructuralOperation)
    requires r.Sound()
    ensures Listed(r.ops, id, a, b) <==> ReportedBoth(r, id, a, b)
  {
    assert a in r.ops <==> Reports(r.Ctx(), r.refs, a);
    assert b in r.ops <==> Reports(r.Ctx(), r.refs, b);
    assert multiset(r.ops)[a] >= 2 <==> ReportedTwice(r.Ctx(), r.refs, a);
  }

  lemma NamedTwiceIff(r: Run, id: OperationId)
    requires r.Sound()
    ensures NamedTwice(r.ops, id) <==> exists a, b :: ReportedBoth(r, id, a, b)
  {
    ListedTwice(r.ops, id);
    if a, b :| Listed(r.ops, id, a, b) { ListedIsReported(r, id, a, b); }
    if a, b :| ReportedBoth(r, id, a, b) { ListedIsReported(r, id, a, b); }
  }

  // ---------------------------------------------------------------- positions

  lemma SamePosition(r: Run, p: Spot, q: Spot)
    requires r.Shaped() && Valid(r.alignment.regions, p) && Valid(r.alignment.regions, q) && p.region == q.region
    requires var a, b := r.alignment.regions[p.region].pairs[p.pair], r.alignment.regions[q.region].pairs[q.pair];
      (a.source.Some? && a.source == b.source) || (a.target.Some? && a.target == b.target)
    ensures p == q
  {
    RunPartitionsChildren(r, p.region);
  }

  /** An aligned pair occupies one position. */
  lemma MatchedOnce(r: Run, op: StructuralOperation)
    requires r.Shaped()
    ensures !FoundTwice(r.alignment.regions, FindMatch(r.Ctx()), op)
  {
    var regions, find := r.alignment.regions, FindMatch(r.Ctx());
    forall p, q | At(regions, find, p) == Some(op) && At(regions, find, q) == Some(op)
      ensures p == q
    {
      var a, b := regions[p.region].pairs[p.pair], regions[q.region].pairs[q.pair];
      PositionsOfRegion(r, p.region, a);
      PositionsOfRegion(r, q.region, b);
      assert a.source == b.source && a.target == b.target;
      RegionIdUnique(r, p.region, q.region);
      SamePosition(r, p, q);
    }
  }

  ghost predicate DeletedInTwo(r: Run, s: NodeRef)
    requires r.Shaped()
  {
    exists i: nat, j: nat :: i != j && DeletedAt(r, s, i) && DeletedAt(r, s, j)
  }

  ghost predicate InsertedInTwo(r: Run, t: NodeRef)
    requires r.Shaped()
  {
    exists i: nat, j: nat :: i != j && InsertedAt(r, t, i) && InsertedAt(r, t, j)
  }

  lemma DeletedSpot(r: Run, op: StructuralOperation, s: NodeRef, p: Spot)
    requires r.Shaped() && AreRefs(r.Ctx(), r.refs) && op.id == DeleteId(s)
    requires At(r.alignment.regions, FindPresence(r.Ctx(), r.refs), p) == Some(op)
    ensures DeletedAt(r, s, p.region) && r.alignment.regions[p.region].pairs[p.pair].source == Some(s)
  {
    var a := r.alignment.regions[p.region].pairs[p.pair];
    AlignedShape(r, p.region, a);
    SourceSideIff(r, p.region, s);
    SourcePositionYields(r, p.region, s);
  }

  lemma InsertedSpot(r: Run, op: StructuralOperation, t: NodeRef, p: Spot)
    requires r.Shaped() && AreRefs(r.Ctx(), r.refs) && op.id == InsertId(t)
    requires At(r.alignment.regions, FindPresence(r.Ctx(), r.refs), p) == Some(op)
    ensures InsertedAt(r, t, p.region) && r.alignment.regions[p.region].pairs[p.pair].target == Some(t)
  {
    var a := r.alignment.regions[p.region].pairs[p.pair];
    AlignedShape(r, p.region, a);
    TargetSideIff(r, p.region, t);
    TargetPositionYields(r, p.region, t);
  }

  lemma SpotOfDeleted(r: Run, s: NodeRef, i: nat) returns (p: Spot)
    requires r.Shaped() && AreRefs(r.Ctx(), r.refs) && DeletedAt(r, s, i)
    requires Delete in r.profile.enabled && s !in r.refs.movedSources
    ensures p.region == i
    ensures At(r.alignment.regions, FindPresence(r.Ctx(), r.refs), p) == Some(DeleteOperation(s, r.UncertainSource(s)))
  {
    SourceSideIff(r, i, s);
    SourcePositionYields(r, i, s);
    var j :| 0 <= j < |r.alignment.regions[i].pairs| && r.alignment.regions[i].pairs[j] == SourcePosition(s, r.ambS);
    p := Spot(i, j);
  }

  lemma SpotOfInserted(r: Run, t: NodeRef, i: nat) returns (p: Spot)
    requires r.Shaped() && AreRefs(r.Ctx(), r.refs) && InsertedAt(r, t, i)
    requires Insert in r.profile.enabled && t !in r.refs.movedTargets
    ensures p.region == i
    ensures At(r.alignment.regions, FindPresence(r.Ctx(), r.refs), p) == Some(InsertOperation(t, r.UncertainTarget(t)))
  {
    TargetSideIff(r, i, t);
    TargetPositionYields(r, i, t);
    var j :| 0 <= j < |r.alignment.regions[i].pairs| && r.alignment.regions[i].pairs[j] == TargetPosition(t, r.ambT);
    p := Spot(i, j);
  }

  lemma DeleteFoundTwice(r: Run, op: StructuralOperation, s: NodeRef)
    requires r.Shaped() && AreRefs(r.Ctx(), r.refs) && op.id == DeleteId(s) && PresenceReported(r.Ctx(), r.refs, op)
    ensures FoundTwice(r.alignment.regions, FindPresence(r.Ctx(), r.refs), op) <==> DeletedInTwo(r, s)
  {
    var regions, find := r.alignment.regions, FindPresence(r.Ctx(), r.refs);
    DeleteReportedIff(r, op, s);
    if p, q :| p != q && At(regions, find, p) == Some(op) && At(regions, find, q) == Some(op) {
      DeletedSpot(r, op, s, p);
      DeletedSpot(r, op, s, q);
      if p.region == q.region { SamePosition(r, p, q); }
    }
    if i: nat, j: nat :| i != j && DeletedAt(r, s, i) && DeletedAt(r, s, j) {
      var p := SpotOfDeleted(r, s, i);
      var q := SpotOfDeleted(r, s, j);
    }
  }

  lemma InsertFoundTwice(r: Run, op: StructuralOperation, t: NodeRef)
    requires r.Shaped() && AreRefs(r.Ctx(), r.refs) && op.id == InsertId(t) && PresenceReported(r.Ctx(), r.refs, op)
    ensures FoundTwice(r.alignment.regions, FindPresence(r.Ctx(), r.refs), op) <==> InsertedInTwo(r, t)
  {
    var regions, find := r.alignment.regions, FindPresence(r.Ctx(), r.refs);
    InsertReportedIff(r, op, t);
    if p, q :| p != q && At(regions, find, p) == Some(op) && At(regions, find, q) == Some(op) {
      InsertedSpot(r, op, t, p);
      InsertedSpot(r, op, t, q);
      if p.region == q.region { SamePosition(r, p, q); }
    }
    if i: nat, j: nat :| i != j && InsertedAt(r, t, i) && InsertedAt(r, t, j) {
      var p := SpotOfInserted(r, t, i);
      var q := SpotOfInserted(r, t, j);
    }
  }

  // ---------------------------------------------------------------- one lemma per kind

  /** Apart from REORDER an operation is determined by its id. */
  lemma SameById(r: Run, a: StructuralOperation, b: StructuralOperation)
    requires r.Sound() && Reports(r.Ctx(), r.refs, a) && Reports(r.Ctx(), r.refs, b) && a.id == b.id && !a.id.ReorderId?
    ensures a == b
  {
    ReportKind(r.Ctx(), r.refs, a);
    ReportKind(r.Ctx(), r.refs, b);
    match a.id
    case MatchedId(s, t) => MatchReportedIff(r, a, s, t); MatchReportedIff(r, b, s, t);
    case UpdateId(s, t) => MatchReportedIff(r, a, s, t); MatchReportedIff(r, b, s, t);
    case DeleteId(s) => DeleteReportedIff(r, a, s); DeleteReportedIff(r, b, s);
    case InsertId(t) => InsertReportedIff(r, a, t); InsertReportedIff(r, b, t);
    case MoveId(s, t) =>
  }

  lemma TwiceByKind(r: Run, op: StructuralOperation)
    requires r.Sound() && Reports(r.Ctx(), r.refs, op)
    ensures NamesPair(op.id) ==> !ReportedTwice(r.Ctx(), r.refs, op)
    ensures op.id.DeleteId? ==> (ReportedTwice(r.Ctx(), r.refs, op) <==> DeletedInTwo(r, op.id.node))
    ensures op.id.InsertId? ==> (ReportedTwice(r.Ctx(), r.refs, op) <==> InsertedInTwo(r, op.id.node))
  {
    ReportKind(r.Ctx(), r.refs, op);
    MatchedOnce(r, op);
    PresenceById(r, op);
    if op.id.DeleteId? { DeleteFoundTwice(r, op, op.id.node); }
    if op.id.InsertId? { InsertFoundTwice(r, op, op.id.node); }
  }

  lemma PresenceById(r: Run, op: StructuralOperation)
    ensures FoundTwice(r.alignment.regions, FindPresence(r.Ctx(), r.refs), op) ==> op.id.DeleteId? || op.id.InsertId?
    ensures ReorderTwice(r.Ctx(), op) ==> op.id.ReorderId?
  {
  }

  /** A second operation with the id of a node means that the node is alone in two regions. */
  lemma DeleteTwiceIff(r: Run, s: NodeRef)
    requires r.Sound()
    ensures NamedTwice(r.ops, DeleteId(s)) <==> r.Emits(DeleteId(s)) && DeletedInTwo(r, s)
  {
    NamedTwiceIff(r, DeleteId(s));
    if a, b :| ReportedBoth(r, DeleteId(s), a, b) {
      SameById(r, a, b);
      TwiceByKind(r, a);
      assert a in r.ops;
    }
    if r.Emits(DeleteId(s)) {
      var op: StructuralOperation :| op in r.ops && op.id == DeleteId(s);
      TwiceByKind(r, op);
      if DeletedInTwo(r, s) { assert ReportedBoth(r, DeleteId(s), op, op); }
    }
  }

  lemma InsertTwiceIff(r: Run, t: NodeRef)
    requires r.Sound()
    ensures NamedTwice(r.ops, InsertId(t)) <==> r.Emits(InsertId(t)) && InsertedInTwo(r, t)
  {
    NamedTwiceIff(r, InsertId(t));
    if a, b :| ReportedBoth(r, InsertId(t), a, b) {
      SameById(r, a, b);
      TwiceByKind(r, a);
      assert a in r.ops;
    }
    if r.Emits(InsertId(t)) {
      var op: StructuralOperation :| op in r.ops && op.id == InsertId(t);
      TwiceByKind(r, op);
      if InsertedInTwo(r, t) { assert ReportedBoth(r, InsertId(t), op, op); }
    }
  }

  lemma PairOnce(r: Run, id: OperationId)
    requires r.Sound() && NamesPair(id)
    ensures !NamedTwice(r.ops, id)
  {
    NamedTwiceIff(r, id);
    if a, b :| ReportedBoth(r, id, a, b) {
      SameById(r, a, b);
      TwiceByKind(r, a);
    }
  }

  ghost predicate ReordersAt(r: Run, p: NodeRef, i: nat)
  {
    i < |r.alignment.regions| && ReorderAt(r.Ctx(), r.alignment.regions[i]).Some? &&
    ReorderAt(r.Ctx(), r.alignment.regions[i]).value.id == ReorderId(p)
  }

  lemma ReorderTwiceIff(r: Run, p: NodeRef)
    requires r.Sound()
    ensures NamedTwice(r.ops, ReorderId(p)) <==> ReordersInTwo(r, p)
  {
    NamedTwiceIff(r, ReorderId(p));
    if a, b :| ReportedBoth(r, ReorderId(p), a, b) { ReorderedTwice(r, p, a, b); }
    if i: nat, j: nat :| i < j && ReordersAt(r, p, i) && ReordersAt(r, p, j) { var a, b := TwoReorders(r, p, i, j); }
  }

  ghost predicate ReordersInTwo(r: Run, p: NodeRef)
  {
    exists i: nat, j: nat :: i < j && ReordersAt(r, p, i) && ReordersAt(r, p, j)
  }

  lemma TwoReorders(r: Run, p: NodeRef, i: nat, j: nat) returns (a: StructuralOperation, b: StructuralOperation)
    requires r.Sound() && i < j && ReordersAt(r, p, i) && ReordersAt(r, p, j)
    ensures ReportedBoth(r, ReorderId(p), a, b)
  {
    a, b := ReorderAt(r.Ctx(), r.alignment.regions[i]).value, ReorderAt(r.Ctx(), r.alignment.regions[j]).value;
    assert ReorderReported(r.Ctx(), a) && ReorderReported(r.Ctx(), b);
    if a == b { assert ReorderTwice(r.Ctx(), a); }
  }

  lemma RegionOfReorder(r: Run, p: NodeRef, op: StructuralOperation) returns (i: nat)
    requires Reports(r.Ctx(), r.refs, op) && op.id == ReorderId(p)
    ensures ReordersAt(r, p, i) && ReorderAt(r.Ctx(), r.alignment.regions[i]) == Some(op)
  {
    ReportKind(r.Ctx(), r.refs, op);
    i :| i < |r.alignment.regions| && ReorderAt(r.Ctx(), r.alignment.regions[i]) == Some(op);
  }

  lemma ReorderedTwice(r: Run, p: NodeRef, a: StructuralOperation, b: StructuralOperation)
    requires r.Sound() && ReportedBoth(r, ReorderId(p), a, b)
    ensures ReordersInTwo(r, p)
  {
    if a != b {
      DifferentReorders(r, p, a, b);
    } else {
      MatchedOnce(r, a);
      PresenceById(r, a);
      SameReorderTwice(r, p, a);
    }
  }

  lemma DifferentReorders(r: Run, p: NodeRef, a: StructuralOperation, b: StructuralOperation)
    requires ReportedBoth(r, ReorderId(p), a, b) && a != b
    ensures ReordersInTwo(r, p)
  {
    var i := RegionOfReorder(r, p, a);
    var j := RegionOfReorder(r, p, b);
    assert i < j || j < i;
  }

  lemma SameReorderTwice(r: Run, p: NodeRef, op: StructuralOperation)
    requires r.Sound() && op.id == ReorderId(p) && ReorderTwice(r.Ctx(), op)
    ensures ReordersInTwo(r, p)
  {
    var i: nat, j: nat :| i < j < |r.alignment.regions| &&
      ReorderAt(r.Ctx(), r.alignment.regions[i]) == Some(op) && ReorderAt(r.Ctx(), r.alignment.regions[j]) == Some(op);
    assert ReordersAt(r, p, i) && ReordersAt(r, p, j);
  }

  // ---------------------------------------------------------------- in terms of trees and matches

  lemma TwoHeads(r: Run, sp: NodeRef, a: NodeRef, b: NodeRef)
    requires r.Shaped() && r.x.Heads(sp, a) && r.x.Heads(sp, b) && a != b
    ensures sp == r.x.source.root && (a == r.x.target.root || b == r.x.target.root)
  {
    if r.x.graph.Pairs(sp, a) && r.x.graph.Pairs(sp, b) { OnlyPartner(r, sp, a); }
  }

  lemma TwoTails(r: Run, tp: NodeRef, a: NodeRef, b: NodeRef)
    requires r.Shaped() && r.x.Heads(a, tp) && r.x.Heads(b, tp) && a != b
    ensures tp == r.x.target.root && (a == r.x.source.root || b == r.x.source.root)
  {
    if r.x.graph.Pairs(a, tp) && r.x.graph.Pairs(b, tp) { OnlyPartner(r, a, tp); }
  }

  /** Under the root pair and under the node the root is confirmed to, the source is alone. */
  ghost predicate AloneTwice(r: Run, s: NodeRef)
  {
    AloneUnder(r, s, r.x.target.root) && exists tp :: tp != r.x.target.root && AloneUnder(r, s, tp)
  }

  ghost predicate NewTwice(r: Run, t: NodeRef)
  {
    NewUnder(r, t, r.x.source.root) && exists sp :: sp != r.x.source.root && NewUnder(r, t, sp)
  }

  ghost predicate ShuffledTwice(r: Run, p: NodeRef)
  {
    Shuffled(r, p, r.x.target.root) && exists tp :: tp != r.x.target.root && Shuffled(r, p, tp)
  }

  ghost predicate InTwoPlaces(r: Run, id: OperationId)
  {
    match id
    case DeleteId(s) => AloneTwice(r, s)
    case InsertId(t) => NewTwice(r, t)
    case ReorderId(p) => ShuffledTwice(r, p)
    case _ => false
  }

  lemma DeletedInTwoIff(r: Run, s: NodeRef)
    requires r.Shaped() && MaySpeak(r, r.UncertainSource(s))
    ensures DeletedInTwo(r, s) <==> AloneTwice(r, s)
  {
    if i: nat, j: nat :| i != j && DeletedAt(r, s, i) && DeletedAt(r, s, j) {
      DeletedAtIff(r, s, i);
      DeletedAtIff(r, s, j);
      var a, b := r.alignment.regions[i].targetParent, r.alignment.regions[j].targetParent;
      if a == b { RegionIdUnique(r, i, j); }
      TwoHeads(r, r.x.source.nodes[s].parent.value, a, b);
    }
    if AloneTwice(r, s) {
      var tp :| tp != r.x.target.root && AloneUnder(r, s, tp);
      var i := RegionUnder(r, r.x.source.nodes[s].parent.value, r.x.target.root);
      var j := RegionUnder(r, r.x.source.nodes[s].parent.value, tp);
      DeletedAtIff(r, s, i);
      DeletedAtIff(r, s, j);
    }
  }

  lemma InsertedInTwoIff(r: Run, t: NodeRef)
    requires r.Shaped() && MaySpeak(r, r.UncertainTarget(t))
    ensures InsertedInTwo(r, t) <==> NewTwice(r, t)
  {
    if i: nat, j: nat :| i != j && InsertedAt(r, t, i) && InsertedAt(r, t, j) {
      InsertedAtIff(r, t, i);
      InsertedAtIff(r, t, j);
      var a, b := r.alignment.regions[i].sourceParent, r.alignment.regions[j].sourceParent;
      if a == b { RegionIdUnique(r, i, j); }
      TwoTails(r, r.x.target.nodes[t].parent.value, a, b);
    }
    if NewTwice(r, t) {
      var sp :| sp != r.x.source.root && NewUnder(r, t, sp);
      var i := RegionUnder(r, r.x.source.root, r.x.target.nodes[t].parent.value);
      var j := RegionUnder(r, sp, r.x.target.nodes[t].parent.value);
      InsertedAtIff(r, t, i);
      InsertedAtIff(r, t, j);
    }
  }

  lemma ReordersAtIff(r: Run, p: NodeRef, i: nat)
    requires r.Shaped() && i < |r.alignment.regions| && Reorder in r.profile.enabled
    ensures var g := r.alignment.regions[i];
      ReordersAt(r, p, i) <==> g.sourceParent == p && Shuffled(r, p, g.targetParent)
  {
    ReorderAtIff(r, i);
  }

  lemma ReordersInTwoIff(r: Run, p: NodeRef)
    requires r.Shaped() && Reorder in r.profile.enabled
    ensures ReordersInTwo(r, p) <==> ShuffledTwice(r, p)
  {
    if i: nat, j: nat :| i < j && ReordersAt(r, p, i) && ReordersAt(r, p, j) { TwoRegionsShuffled(r, p, i, j); }
    if ShuffledTwice(r, p) {
      var tp :| tp != r.x.target.root && Shuffled(r, p, tp);
      ShuffledInTwo(r, p, r.x.target.root, tp);
    }
  }

  lemma ShuffledInTwo(r: Run, p: NodeRef, a: NodeRef, b: NodeRef)
    requires r.Shaped() && Reorder in r.profile.enabled && Shuffled(r, p, a) && Shuffled(r, p, b) && a != b
    ensures ReordersInTwo(r, p)
  {
    var i := ShuffledRegion(r, p, a);
    var j := ShuffledRegion(r, p, b);
    InTwo(r, p, i, j, a, b);
  }

  lemma InTwo(r: Run, p: NodeRef, i: nat, j: nat, a: NodeRef, b: NodeRef)
    requires ReordersAt(r, p, i) && ReordersAt(r, p, j) && a != b
    requires r.alignment.regions[i].targetParent == a && r.alignment.regions[j].targetParent == b
    ensures ReordersInTwo(r, p)
  {
    assert i < j || j < i;
  }

  lemma ShuffledRegion(r: Run, p: NodeRef, tp: NodeRef) returns (i: nat)
    requires r.Shaped() && Reorder in r.profile.enabled && Shuffled(r, p, tp)
    ensures ReordersAt(r, p, i) && r.alignment.regions[i].targetParent == tp
  {
    i := RegionUnder(r, p, tp);
    ReordersAtIff(r, p, i);
  }

  lemma TwoRegionsShuffled(r: Run, p: NodeRef, i: nat, j: nat)
    requires r.Shaped() && Reorder in r.profile.enabled && i < j && ReordersAt(r, p, i) && ReordersAt(r, p, j)
    ensures ShuffledTwice(r, p)
  {
    ReordersAtIff(r, p, i);
    ReordersAtIff(r, p, j);
    RegionIdsDiffer(r.x, r.alignment, r.ambS, r.ambT, i, j);
    TwoHeads(r, p, r.alignment.regions[i].targetParent, r.alignment.regions[j].targetParent);
  }

  lemma DeleteRepeatsIff(r: Run, s: NodeRef)
    requires r.Sound()
    ensures NamedTwice(r.ops, DeleteId(s)) <==> r.Emits(DeleteId(s)) && AloneTwice(r, s)
  {
    DeleteTwiceIff(r, s);
    EmittedMaySpeak(r, s);
    if r.Emits(DeleteId(s)) { DeletedInTwoIff(r, s); }
  }

  lemma InsertRepeatsIff(r: Run, t: NodeRef)
    requires r.Sound()
    ensures NamedTwice(r.ops, InsertId(t)) <==> r.Emits(InsertId(t)) && NewTwice(r, t)
  {
    InsertTwiceIff(r, t);
    EmittedMaySpeak(r, t);
    if r.Emits(InsertId(t)) { InsertedInTwoIff(r, t); }
  }

  /**
   * When an id occurs twice in the output: never for MATCH, UPDATE and MOVE; for DELETE exactly if the
   * deleted node is alone both under the root pair and under the node its parent, the source root, is
   * confirmed to; for INSERT and REORDER in the corresponding cases.
   */
  lemma IdRepeatsIff(r: Run, id: OperationId)
    requires r.Sound()
    ensures NamedTwice(r.ops, id) <==> r.Emits(id) && InTwoPlaces(r, id)
  {
    match id
    case DeleteId(s) => DeleteRepeatsIff(r, s);
    case InsertId(t) => InsertRepeatsIff(r, t);
    case ReorderId(p) => ReorderRepeatsIff(r, p);
    case _ => PairOnce(r, id);
  }

  lemma ReorderRepeatsIff(r: Run, p: NodeRef)
    requires r.Sound()
    ensures NamedTwice(r.ops, ReorderId(p)) <==> r.Emits(ReorderId(p)) && ShuffledTwice(r, p)
  {
    if NamedTwice(r.ops, ReorderId(p)) { TwiceIsEmitted(r, ReorderId(p)); }
    if r.Emits(ReorderId(p)) {
      ReorderIff(r, p);
      ReorderTwiceIff(r, p);
      ReordersInTwoIff(r, p);
    }
  }

  lemma TwiceIsEmitted(r: Run, id: OperationId)
    requires NamedTwice(r.ops, id)
    ensures r.Emits(id)
  {
    var i :| 0 <= i < |r.ops| && r.ops[i].id == id;
    assert r.ops[i] in r.ops;
  }

  lemma EmittedMaySpeak(r: Run, n: NodeRef)
    requires r.Sound()
    ensures r.Emits(DeleteId(n)) ==> MaySpeak(r, r.UncertainSource(n))
    ensures r.Emits(InsertId(n)) ==> MaySpeak(r, r.UncertainTarget(n))
  {
    if r.profile.presence != EmitAll { NoPresenceClaimOnUncertainNodes(r, n); }
  }

  /** With settled roots all operation ids of a run are distinct. */
  lemma OperationIdsDistinct(r: Run)
    requires r.Sound() && r.RootsSettled()
    ensures forall i, j :: 0 <= i < j < |r.ops| ==> r.ops[i].id != r.ops[j].id
  {
    forall i, j | 0 <= i < j < |r.ops|
      ensures r.ops[i].id != r.ops[j].id
    {
      IdRepeatsIff(r, r.ops[i].id);
      if r.ops[i].id == r.ops[j].id { NothingTwice(r, r.ops[i].id); }
    }
  }

  lemma NothingTwice(r: Run, id: OperationId)
    requires r.Shaped() && r.RootsSettled()
    ensures !InTwoPlaces(r, id)
  {
    forall a, tp | r.x.Heads(a, r.x.target.root) && r.x.Heads(a, tp)
      ensures tp == r.x.target.root
    {
      HeadsUnique(r, a, r.x.target.root, a, tp);
    }
    forall sp | r.x.Heads(sp, r.x.target.root)
      ensures sp == r.x.source.root
    {
    }
  }

  /** So are their string forms, unless a source handle contains an arrow. */
  lemma OperationNamesDistinct(r: Run)
    requires r.Sound() && r.RootsSettled() && forall n :: n in r.x.source.nodes ==> !HasArrow(n)
    ensures forall i, j :: 0 <= i < j < |r.ops| ==> RenderId(r.ops[i].id) != RenderId(r.ops[j].id)
  {
    OperationIdsDistinct(r);
    forall i, j | 0 <= i < j < |r.ops|
      ensures RenderId(r.ops[i].id) != RenderId(r.ops[j].id)
    {
      if NamesPair(r.ops[i].id) { OperationNamesSource(r, r.ops[i]); }
      if NamesPair(r.ops[j].id) { OperationNamesSource(r, r.ops[j]); }
      if RenderId(r.ops[i].id) == RenderId(r.ops[j].id) { RenderIdInjective(r.ops[i].id, r.ops[j].id); }
    }
  }

}
