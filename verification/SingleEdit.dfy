/**
 * The headline claim: with unique authoritative ids, one structural edit is diagnosed by one
 * structural operation, and every other node is matched in place.
 */
module SingleEdit {
  import opened Options
  import opened Ordering
  import opened Trees
  import opened Profiles
  import opened Evidence
  import opened Matches
  import opened Alignment
  import opened Regions
  import opened Aligner
  import opened Operations
  import opened Classification
  import opened Diagnosis
  import opened Regularity
  import opened Guarantees
  import opened Repetition
  import opened Pipeline
  import opened Twins

  /** The counterpart of each surviving node; source and target use different handles. */
  type Renaming = map<NodeRef, NodeRef>

  function Renamed(m: Renaming, xs: seq<NodeRef>): seq<NodeRef>
    requires forall x :: x in xs ==> x in m
  {
    seq(|xs|, i requires 0 <= i < |xs| => m[xs[i]])
  }

  function Without(xs: seq<NodeRef>, k: nat): seq<NodeRef>
    requires k < |xs|
  {
    xs[..k] + xs[k + 1..]
  }

  function Inserted(xs: seq<NodeRef>, k: nat, x: NodeRef): seq<NodeRef>
    requires k <= |xs|
  {
    xs[..k] + [x] + xs[k..]
  }

  /** `m` pairs every node of `a` with the node of `b` that carries its id; nothing else has a twin. */
  ghost predicate Embeds(a: Tree, b: Tree, m: Renaming)
  {
    m.Keys == a.nodes.Keys && a.root in m && m[a.root] == b.root &&
    (forall n :: n in m ==> Twin(a, b, n, m[n])) &&
    forall n, t :: Twin(a, b, n, t) ==> n in m && m[n] == t
  }

  /** The children of `m[n]` are the renamed children of `n`. */
  ghost predicate SameChildren(a: Tree, b: Tree, m: Renaming, n: NodeRef)
  {
    n in a.nodes && n in m && m[n] in b.nodes && (forall c :: c in a.nodes[n].children ==> c in m) &&
    b.nodes[m[n]].children == Renamed(m, a.nodes[n].children)
  }

  // ---------------------------------------------------------------- the edits

  /** No structural change at all. */
  ghost predicate Unedited(a: Tree, b: Tree, m: Renaming)
  {
    Embeds(a, b, m) && m.Values == b.nodes.Keys && forall n :: n in a.nodes ==> SameChildren(a, b, m, n)
  }

  /** `b` is `a` with a new subtree, rooted at `c`, inserted as the k-th child of `p`. */
  ghost predicate Grafted(a: Tree, b: Tree, m: Renaming, p: NodeRef, k: nat, c: NodeRef)
  {
    Embeds(a, b, m) && p in a.nodes && c in b.nodes && c !in m.Values &&
    (forall n :: n in a.nodes && n != p ==> SameChildren(a, b, m, n)) &&
    (forall x :: x in a.nodes[p].children ==> x in m) && k <= |a.nodes[p].children| && m[p] in b.nodes &&
    b.nodes[m[p]].children == Inserted(Renamed(m, a.nodes[p].children), k, c)
  }

  /** `b` is `a` with the j-th child of `p`, and all below it, moved to be the k-th child of `q`. */
  ghost predicate Relocated(a: Tree, b: Tree, m: Renaming, p: NodeRef, j: nat, q: NodeRef, k: nat)
  {
    Embeds(a, b, m) && m.Values == b.nodes.Keys && p in a.nodes && q in a.nodes && p != q &&
    (forall n :: n in a.nodes && n != p && n != q ==> SameChildren(a, b, m, n)) &&
    (forall n, x :: n in a.nodes && x in a.nodes[n].children ==> x in m) &&
    j < |a.nodes[p].children| && k <= |a.nodes[q].children| && m[p] in b.nodes && m[q] in b.nodes &&
    b.nodes[m[p]].children == Without(Renamed(m, a.nodes[p].children), j) &&
    b.nodes[m[q]].children == Inserted(Renamed(m, a.nodes[q].children), k, m[a.nodes[p].children[j]])
  }

  /** `b` is `a` with the children of `p` in another order. */
  ghost predicate Permuted(a: Tree, b: Tree, m: Renaming, p: NodeRef)
  {
    Embeds(a, b, m) && m.Values == b.nodes.Keys && p in a.nodes &&
    (forall n :: n in a.nodes && n != p ==> SameChildren(a, b, m, n)) &&
    (forall x :: x in a.nodes[p].children ==> x in m) && m[p] in b.nodes &&
    multiset(b.nodes[m[p]].children) == multiset(Renamed(m, a.nodes[p].children)) &&
    b.nodes[m[p]].children != Renamed(m, a.nodes[p].children)
  }

  // ---------------------------------------------------------------- what should be reported

  /** MATCH for each unchanged non-root survivor, UPDATE for each with changed content. */
  ghost predicate Routine(r: Run, id: OperationId)
  {
    match id
    case MatchedId(s, t) =>
      Twin(r.x.source, r.x.target, s, t) && s != r.x.source.root && !ContentDiffers(r.Ctx(), s, t)
    case UpdateId(s, t) =>
      Twin(r.x.source, r.x.target, s, t) && s != r.x.source.root && ContentDiffers(r.Ctx(), s, t)
    case _ => false
  }

  /** The run reports the routine findings, except about `moved`, plus exactly the given operations. */
  ghost predicate ReportsExactly(r: Run, extra: set<OperationId>, moved: set<NodeRef>)
  {
    (forall id :: r.Emits(id) <==>
      id in extra || (Routine(r, id) && !((id.MatchedId? || id.UpdateId?) && id.source in moved))) &&
    forall i, j :: 0 <= i < j < |r.ops| ==> r.ops[i].id != r.ops[j].id
  }

  // ---------------------------------------------------------------- parents

  lemma ParentFromChildren(t: Tree, p: NodeRef, n: NodeRef)
    requires t.Valid() && p in t.nodes && n in t.nodes[p].children
    ensures n in t.nodes && t.nodes[n].parent == Some(p)
  {
    ChildIffParent(t, n, p);
  }

  lemma ChildOfParent(t: Tree, n: NodeRef)
    requires t.Valid() && n in t.nodes && n != t.root
    ensures t.nodes[n].parent.Some? && t.nodes[n].parent.value in t.nodes
    ensures n in t.nodes[t.nodes[n].parent.value].children
  {
    assert t.LinksAt(n);
  }

  /** If the renamed child sits under the renamed parent, the pair stays. */
  lemma RenamedChildStays(r: Run, s: NodeRef, t: NodeRef, p: NodeRef, q: NodeRef)
    requires ByTwins(r) && Twin(r.x.source, r.x.target, s, t) && Twin(r.x.source, r.x.target, p, q)
    requires s in r.x.source.nodes[p].children && t in r.x.target.nodes[q].children
    ensures r.Stays(s, t)
  {
    ParentFromChildren(r.x.source, p, s);
    ParentFromChildren(r.x.target, q, t);
  }

  lemma TwinsOfTwin(r: Run, s: NodeRef, t: NodeRef, s2: NodeRef, t2: NodeRef)
    requires ByTwins(r) && Twin(r.x.source, r.x.target, s, t) && Twin(r.x.source, r.x.target, s2, t2)
    ensures s == s2 <==> t == t2
  {
    if s != r.x.source.root && s2 != r.x.source.root { PairsUnique(r.x.graph, s, t, s2, t2); }
  }

  // ---------------------------------------------------------------- order

  lemma PartnerIsTwin(r: Run, s: NodeRef, t: NodeRef)
    requires ByTwins(r) && s != r.x.source.root
    ensures r.x.Partners()(s) == Some(t) <==> Twin(r.x.source, r.x.target, s, t)
  {
    PartnerIsPair(r, s, t);
  }

  lemma RootIsNoChild(t: Tree, n: NodeRef)
    requires t.Valid() && n in t.nodes
    ensures t.root !in t.nodes[n].children
  {
    ChildIffParent(t, t.root, n);
  }

  lemma SameIndex<T>(xs: seq<T>, i: nat, j: nat)
    requires Distinct(xs) && i < |xs| && j < |xs|
    ensures xs[i] == xs[j] <==> i == j
  {
  }

  /** The partners of `scs` are `ts`, in the same order. */
  ghost predicate Follows(scs: seq<NodeRef>, ts: seq<NodeRef>, partner: Partner)
  {
    |ts| == |scs| && forall i :: 0 <= i < |scs| ==> partner(scs[i]) == Some(ts[i])
  }

  /** Where an inserted child and its siblings end up. */
  lemma InsertedAtIndex(xs: seq<NodeRef>, k: nat, x: NodeRef, ys: seq<NodeRef>)
    requires k <= |xs| && ys == Inserted(xs, k, x)
    ensures |ys| == |xs| + 1 && ys[k] == x
    ensures forall i :: 0 <= i < k ==> ys[i] == xs[i]
    ensures forall i :: k <= i < |xs| ==> ys[i + 1] == xs[i]
    ensures forall y :: y in ys <==> y == x || y in xs
  {
    forall y | y in xs
      ensures y in ys
    {
      var i :| 0 <= i < |xs| && xs[i] == y;
      assert y == if i < k then ys[i] else ys[i + 1];
    }
    forall y | y in ys
      ensures y == x || y in xs
    {
      var i :| 0 <= i < |ys| && ys[i] == y;
      if i != k { assert y == if i < k then xs[i] else xs[i - 1]; }
    }
  }

  lemma WithoutAtIndex(xs: seq<NodeRef>, k: nat, ys: seq<NodeRef>)
    requires k < |xs| && ys == Without(xs, k)
    ensures |ys| + 1 == |xs|
    ensures forall i :: 0 <= i < k ==> ys[i] == xs[i]
    ensures forall i :: k < i < |xs| ==> ys[i - 1] == xs[i]
    ensures forall i :: 0 <= i < |xs| && i != k ==> xs[i] in ys
    ensures forall y :: y in ys ==> y in xs
  {
    forall i | 0 <= i < |xs| && i != k
      ensures xs[i] in ys
    {
      assert xs[i] == if i < k then ys[i] else ys[i - 1];
    }
  }

  /** Children kept in place, with a stranger added among their partners, are not inverted. */
  lemma InsertionKeepsOrder(scs: seq<NodeRef>, ts: seq<NodeRef>, partner: Partner, k: nat, c: NodeRef)
    requires Follows(scs, ts, partner) && k <= |ts| && Distinct(Inserted(ts, k, c))
    ensures !Inverted(scs, Inserted(ts, k, c), partner)
  {
    var tcs := Inserted(ts, k, c);
    forall i, j, p, q | 0 <= i < j < |scs| && 0 <= p < q < |tcs| && partner(scs[i]) == Some(tcs[q])
      ensures partner(scs[j]) != Some(tcs[p])
    {
      var a, b := if i < k then i else i + 1, if j < k then j else j + 1;
      assert tcs[a] == ts[i] && tcs[b] == ts[j];
      SameIndex(tcs, q, a);
      SameIndex(tcs, p, b);
    }
  }

  /** Nor are they when the partner of one of them is gone. */
  lemma RemovalKeepsOrder(scs: seq<NodeRef>, ts: seq<NodeRef>, partner: Partner, k: nat)
    requires Follows(scs, ts, partner) && k < |ts| && Distinct(ts)
    ensures !Inverted(scs, Without(ts, k), partner)
  {
    var tcs := Without(ts, k);
    forall i, j, p, q | 0 <= i < j < |scs| && 0 <= p < q < |tcs| && partner(scs[i]) == Some(tcs[q])
      ensures partner(scs[j]) != Some(tcs[p])
    {
      var a, b := if q < k then q else q + 1, if p < k then p else p + 1;
      assert tcs[q] == ts[a] && tcs[p] == ts[b];
      SameIndex(ts, i, a);
      SameIndex(ts, j, b);
    }
  }

  /** Or when a child without partner is added on the source side. */
  lemma ExtraChildKeepsOrder(scs: seq<NodeRef>, ts: seq<NodeRef>, partner: Partner, k: nat, c: NodeRef)
    requires Follows(scs, ts, partner) && k <= |scs| && Distinct(ts) && partner(c) == None
    ensures !Inverted(Inserted(scs, k, c), ts, partner)
  {
    var xs := Inserted(scs, k, c);
    forall i, j, p, q | 0 <= i < j < |xs| && 0 <= p < q < |ts| && partner(xs[i]) == Some(ts[q])
      ensures partner(xs[j]) != Some(ts[p])
    {
      if j != k {
        var a, b := if i < k then i else i - 1, if j < k then j else j - 1;
        assert xs[i] == scs[a] && xs[j] == scs[b];
        SameIndex(ts, q, a);
        SameIndex(ts, p, b);
      }
    }
  }

  lemma SameOrder(scs: seq<NodeRef>, ts: seq<NodeRef>, partner: Partner)
    requires Follows(scs, ts, partner) && Distinct(ts)
    ensures !Inverted(scs, ts, partner)
  {
    forall i, j, p, q | 0 <= i < j < |scs| && 0 <= p < q < |ts| && partner(scs[i]) == Some(ts[q])
      ensures partner(scs[j]) != Some(ts[p])
    {
      SameIndex(ts, q, i);
      SameIndex(ts, p, j);
    }
  }

  /** Any other arrangement of the partners inverts two of them. */
  lemma OtherOrderInverts(scs: seq<NodeRef>, ts: seq<NodeRef>, tcs: seq<NodeRef>, partner: Partner)
    requires Follows(scs, ts, partner) && Distinct(ts) && Distinct(tcs) && multiset(ts) == multiset(tcs) && ts != tcs
    ensures Inverted(scs, tcs, partner)
  {
    DifferentIsCrossed(ts, tcs);
    var i, j, a, b :| 0 <= i < j < |ts| && 0 <= a < b < |tcs| && ts[i] == tcs[b] && ts[j] == tcs[a];
    assert partner(scs[i]) == Some(tcs[b]) && partner(scs[j]) == Some(tcs[a]);
  }

  lemma ChildrenDistinct(t: Tree, n: NodeRef)
    requires t.Valid() && n in t.nodes
    ensures Distinct(t.nodes[n].children)
  {
  }

  lemma PartnersFollow(r: Run, m: Renaming, scs: seq<NodeRef>)
    requires ByTwins(r) && Embeds(r.x.source, r.x.target, m) && forall x :: x in scs ==> x in m
    requires r.x.source.root !in scs
    ensures Follows(scs, Renamed(m, scs), r.x.Partners())
  {
    forall i | 0 <= i < |scs|
      ensures r.x.Partners()(scs[i]) == Some(Renamed(m, scs)[i])
    {
      assert scs[i] in scs;
      PartnerIsTwin(r, scs[i], m[scs[i]]);
    }
  }

  lemma SameChildrenNotShuffled(r: Run, m: Renaming, n: NodeRef)
    requires ByTwins(r) && Embeds(r.x.source, r.x.target, m) && SameChildren(r.x.source, r.x.target, m, n)
    ensures forall t :: !Shuffled(r, n, t)
  {
    ChildrenDistinct(r.x.target, m[n]);
    RootIsNoChild(r.x.source, n);
    PartnersFollow(r, m, r.x.source.nodes[n].children);
    SameOrder(r.x.source.nodes[n].children, r.x.target.nodes[m[n]].children, r.x.Partners());
    OnlyTwinHeads(r, n, m[n]);
  }

  lemma OnlyTwinHeads(r: Run, s: NodeRef, t: NodeRef)
    requires ByTwins(r) && Twin(r.x.source, r.x.target, s, t)
    ensures forall t2 :: r.x.Heads(s, t2) ==> t2 == t
  {
    forall t2 | r.x.Heads(s, t2)
      ensures t2 == t
    {
      assert r.x.Heads(s, t);
      HeadsUnique(r, s, t, s, t2);
    }
  }

  // ---------------------------------------------------------------- from structure to reports

  /** Every surviving pair of non-root nodes except the moved ones stays under corresponding parents. */
  ghost predicate StaysExcept(r: Run, moved: set<NodeRef>)
  {
    forall s, t {:trigger StaysAsMoved(r, moved, s, t)} :: StaysAsMoved(r, moved, s, t)
  }

  ghost predicate StaysAsMoved(r: Run, moved: set<NodeRef>, s: NodeRef, t: NodeRef)
  {
    Twin(r.x.source, r.x.target, s, t) && s != r.x.source.root ==> (r.Stays(s, t) <==> s !in moved)
  }

  /** A source node without twin, directly below a node with one. */
  ghost predicate TopmostSource(r: Run, s: NodeRef)
  {
    s in r.x.source.nodes && (forall t :: !Twin(r.x.source, r.x.target, s, t)) &&
    r.x.source.nodes[s].parent.Some? &&
    exists tp :: Twin(r.x.source, r.x.target, r.x.source.nodes[s].parent.value, tp)
  }

  ghost predicate TopmostTarget(r: Run, t: NodeRef)
  {
    t in r.x.target.nodes && (forall s :: !Twin(r.x.source, r.x.target, s, t)) &&
    r.x.target.nodes[t].parent.Some? &&
    exists sp :: Twin(r.x.source, r.x.target, sp, r.x.target.nodes[t].parent.value)
  }

  lemma PairsAreTwins(r: Run, s: NodeRef, t: NodeRef)
    requires ByTwins(r)
    ensures s != r.x.source.root ==> (r.x.graph.Pairs(s, t) <==> Twin(r.x.source, r.x.target, s, t))
    ensures r.x.graph.Pairs(s, t) ==> Twin(r.x.source, r.x.target, s, t)
    ensures Twin(r.x.source, r.x.target, s, t) ==> (s == r.x.source.root <==> t == r.x.target.root)
  {
    if r.x.graph.Pairs(s, t) && s == r.x.source.root { assert t == r.x.target.root; }
  }

  lemma RoutineIffEmitted(r: Run, moved: set<NodeRef>, s: NodeRef, t: NodeRef)
    requires ByTwins(r) && StaysAsMoved(r, moved, s, t)
    ensures r.Emits(MatchedId(s, t)) <==> Routine(r, MatchedId(s, t)) && s !in moved
    ensures r.Emits(UpdateId(s, t)) <==> Routine(r, UpdateId(s, t)) && s !in moved
    ensures r.Emits(MoveId(s, t)) <==> Twin(r.x.source, r.x.target, s, t) && s != r.x.source.root && s in moved
  {
    MatchIff(r, s, t);
    MoveIff(r, s, t);
    PairsAreTwins(r, s, t);
    if Twin(r.x.source, r.x.target, s, t) {
      NonRootHasParent(r.x.source, s);
      NonRootHasParent(r.x.target, t);
    }
  }

  ghost predicate AllResolved(r: Run)
  {
    (forall i: nat :: i < |r.alignment.regions| ==> !r.alignment.regions[i].unresolved) &&
    forall n :: !r.UncertainSource(n) && !r.UncertainTarget(n)
  }

  lemma UnpairedDeleteIff(r: Run, s: NodeRef)
    requires r.Sound() && r.profile.AllEnabled() && AllResolved(r) && forall t :: !r.x.graph.Pairs(s, t)
    ensures r.Emits(DeleteId(s)) <==>
      s in r.x.source.nodes && r.x.source.nodes[s].parent.Some? &&
      exists tp :: r.x.Heads(r.x.source.nodes[s].parent.value, tp)
  {
    DeleteIff(r, s);
    if s in r.x.source.nodes && r.x.source.nodes[s].parent.Some? {
      if tp :| r.x.Heads(r.x.source.nodes[s].parent.value, tp) {
        var i := RegionUnder(r, r.x.source.nodes[s].parent.value, tp);
        assert DeletedAt(r, s, i);
      }
    }
    if i: nat :| DeletedAt(r, s, i) { RegionAt(r, i); }
  }

  lemma UnpairedInsertIff(r: Run, t: NodeRef)
    requires r.Sound() && r.profile.AllEnabled() && AllResolved(r) && forall s :: !r.x.graph.Pairs(s, t)
    ensures r.Emits(InsertId(t)) <==>
      t in r.x.target.nodes && r.x.target.nodes[t].parent.Some? &&
      exists sp :: r.x.Heads(sp, r.x.target.nodes[t].parent.value)
  {
    InsertIff(r, t);
    if t in r.x.target.nodes && r.x.target.nodes[t].parent.Some? {
      if sp :| r.x.Heads(sp, r.x.target.nodes[t].parent.value) {
        var i := RegionUnder(r, sp, r.x.target.nodes[t].parent.value);
        assert InsertedAt(r, t, i);
      }
    }
    if i: nat :| InsertedAt(r, t, i) { RegionAt(r, i); }
  }

  lemma HeadsIffTwins(r: Run, s: NodeRef, t: NodeRef)
    requires ByTwins(r)
    ensures r.x.Heads(s, t) <==> Twin(r.x.source, r.x.target, s, t)
  {
    PairsAreTwins(r, s, t);
  }

  lemma RootIsNotDeleted(r: Run)
    requires ByTwins(r)
    ensures !r.Emits(DeleteId(r.x.source.root)) && !r.Emits(InsertId(r.x.target.root))
  {
    DeleteIff(r, r.x.source.root);
    InsertIff(r, r.x.target.root);
  }

  lemma DeleteIffTopmost(r: Run, s: NodeRef)
    requires ByTwins(r) && AllResolved(r)
    ensures r.Emits(DeleteId(s)) <==> TopmostSource(r, s)
  {
    forall a, b
      ensures r.x.Heads(a, b) <==> Twin(r.x.source, r.x.target, a, b)
    {
      HeadsIffTwins(r, a, b);
    }
    if s == r.x.source.root {
      RootIsNotDeleted(r);
    } else if t :| r.x.graph.Pairs(s, t) {
      PairedIsNotDeleted(r, s, t);
    } else {
      UnpairedDeleteIff(r, s);
    }
  }

  lemma InsertIffTopmost(r: Run, t: NodeRef)
    requires ByTwins(r) && AllResolved(r)
    ensures r.Emits(InsertId(t)) <==> TopmostTarget(r, t)
  {
    forall a, b
      ensures r.x.Heads(a, b) <==> Twin(r.x.source, r.x.target, a, b)
    {
      HeadsIffTwins(r, a, b);
    }
    if t == r.x.target.root {
      RootIsNotDeleted(r);
    } else if s :| r.x.graph.Pairs(s, t) {
      PairedIsNotDeleted(r, s, t);
    } else {
      forall s
        ensures !Twin(r.x.source, r.x.target, s, t)
      {
        PairsAreTwins(r, s, t);
      }
      UnpairedInsertIff(r, t);
    }
  }

  lemma PairedIsNotDeleted(r: Run, s: NodeRef, t: NodeRef)
    requires ByTwins(r) && r.x.graph.Pairs(s, t)
    ensures !r.Emits(DeleteId(s)) && !r.Emits(InsertId(t))
  {
    PairsAreTwins(r, s, t);
    if s != r.x.source.root {
      EveryMatchHasOneDiagnosis(r, s, t);
    } else {
      DeleteIff(r, s);
      InsertIff(r, t);
    }
  }

  /** Without ambiguity no region is unresolved. */
  lemma NothingUnresolved(r: Run, i: nat)
    requires ByTwins(r) && i < |r.alignment.regions|
    ensures !r.alignment.regions[i].unresolved
  {
    assert r.x.Describes(r.alignment.regions[i], r.ambS, r.ambT);
    forall j | 0 <= j < |r.alignment.regions[i].pairs|
      ensures !r.alignment.regions[i].pairs[j].IsUnresolved()
    {
      var p := r.alignment.regions[i].pairs[j];
      AlignedShape(r, i, p);
      if p.source.Some? { UncertainIffIndexed(r, p.source.value); }
      if p.target.Some? { UncertainIffIndexed(r, p.target.value); }
    }
  }

  ghost predicate ShuffledAt(r: Run, n: NodeRef)
  {
    exists t :: Shuffled(r, n, t)
  }

  /** All reports of an unambiguous run, from four structural facts. */
  lemma ReportsFromStructure(r: Run, moved: set<NodeRef>, extra: set<OperationId>)
    requires ByTwins(r)
    requires StaysExcept(r, moved)
    requires forall s :: TopmostSource(r, s) <==> DeleteId(s) in extra
    requires forall t :: TopmostTarget(r, t) <==> InsertId(t) in extra
    requires forall p :: ShuffledAt(r, p) <==> ReorderId(p) in extra
    requires forall s, t :: MoveId(s, t) in extra <==>
      Twin(r.x.source, r.x.target, s, t) && s != r.x.source.root && s in moved
    requires forall id :: id in extra ==> !id.MatchedId? && !id.UpdateId?
    ensures ReportsExactly(r, extra, moved)
  {
    forall i: nat | i < |r.alignment.regions|
      ensures !r.alignment.regions[i].unresolved
    {
      NothingUnresolved(r, i);
    }
    forall id
      ensures r.Emits(id) <==>
        id in extra || (Routine(r, id) && !((id.MatchedId? || id.UpdateId?) && id.source in moved))
    {
      if id.MatchedId? || id.UpdateId? || id.MoveId? { assert StaysAsMoved(r, moved, id.source, id.target); }
      match id
      case MatchedId(s, t) => RoutineIffEmitted(r, moved, s, t);
      case UpdateId(s, t) => RoutineIffEmitted(r, moved, s, t);
      case MoveId(s, t) => RoutineIffEmitted(r, moved, s, t);
      case DeleteId(s) => DeleteIffTopmost(r, s);
      case InsertId(t) => InsertIffTopmost(r, t);
      case ReorderId(p) => ReorderIff(r, p);
    }
    OperationIdsDistinct(r);
  }

  // ---------------------------------------------------------------- the five edits

  lemma ChildStays(r: Run, m: Renaming, n: NodeRef, c: NodeRef)
    requires ByTwins(r) && Embeds(r.x.source, r.x.target, m) && SameChildren(r.x.source, r.x.target, m, n)
    requires c in r.x.source.nodes[n].children
    ensures r.Stays(c, m[c])
  {
    var i :| 0 <= i < |r.x.source.nodes[n].children| && r.x.source.nodes[n].children[i] == c;
    assert r.x.target.nodes[m[n]].children[i] == m[c];
    RenamedChildStays(r, c, m[c], n, m[n]);
  }

  /** Nothing but the renamed children sits under a node whose children were kept. */
  lemma ChildHasTwin(a: Tree, b: Tree, m: Renaming, n: NodeRef, t: NodeRef)
    requires SameChildren(a, b, m, n) && t in b.nodes[m[n]].children
    ensures t in m.Values
  {
    var i :| 0 <= i < |b.nodes[m[n]].children| && b.nodes[m[n]].children[i] == t;
    assert a.nodes[n].children[i] in m && m[a.nodes[n].children[i]] == t;
  }

  lemma EverySourceHasTwin(r: Run, m: Renaming)
    requires Embeds(r.x.source, r.x.target, m)
    ensures forall s :: !TopmostSource(r, s)
  {
    forall s | s in r.x.source.nodes
      ensures Twin(r.x.source, r.x.target, s, m[s])
    {
      assert s in m;
    }
  }

  lemma EveryTargetHasTwin(r: Run, m: Renaming)
    requires Embeds(r.x.source, r.x.target, m) && m.Values == r.x.target.nodes.Keys
    ensures forall t :: !TopmostTarget(r, t)
  {
    forall t | t in r.x.target.nodes
      ensures exists s :: Twin(r.x.source, r.x.target, s, t)
    {
      var s :| s in m && m[s] == t;
      assert Twin(r.x.source, r.x.target, s, t);
    }
  }

  lemma EditedUnedited(r: Run, m: Renaming)
    requires ByTwins(r) && Unedited(r.x.source, r.x.target, m)
    ensures ReportsExactly(r, {}, {})
  {
    forall s, t | Twin(r.x.source, r.x.target, s, t) && s != r.x.source.root
      ensures r.Stays(s, t)
    {
      ChildOfParent(r.x.source, s);
      ChildStays(r, m, r.x.source.nodes[s].parent.value, s);
    }
    assert forall s, t :: StaysAsMoved(r, {}, s, t);
    EverySourceHasTwin(r, m);
    EveryTargetHasTwin(r, m);
    forall p, q
      ensures !Shuffled(r, p, q)
    {
      if p in r.x.source.nodes { SameChildrenNotShuffled(r, m, p); }
    }
    ReportsFromStructure(r, {}, {});
  }

  lemma RenamedMembers(m: Renaming, xs: seq<NodeRef>)
    requires forall x :: x in xs ==> x in m
    ensures forall x :: x in xs ==> m[x] in Renamed(m, xs)
    ensures forall y :: y in Renamed(m, xs) ==> exists x :: x in xs && m[x] == y
  {
    forall x | x in xs
      ensures m[x] in Renamed(m, xs)
    {
      var i :| 0 <= i < |xs| && xs[i] == x;
      assert Renamed(m, xs)[i] == m[x];
    }
    forall y | y in Renamed(m, xs)
      ensures exists x :: x in xs && m[x] == y
    {
      var i :| 0 <= i < |xs| && Renamed(m, xs)[i] == y;
      assert xs[i] in xs && m[xs[i]] == y;
    }
  }

  lemma GraftKeepsParents(r: Run, m: Renaming, p: NodeRef, k: nat, c: NodeRef)
    requires ByTwins(r) && Grafted(r.x.source, r.x.target, m, p, k, c)
    ensures StaysExcept(r, {})
  {
    forall s, t | Twin(r.x.source, r.x.target, s, t) && s != r.x.source.root
      ensures r.Stays(s, t)
    {
      ChildOfParent(r.x.source, s);
      var n := r.x.source.nodes[s].parent.value;
      if n != p {
        ChildStays(r, m, n, s);
      } else {
        var scs := r.x.source.nodes[p].children;
        RenamedMembers(m, scs);
        InsertedAtIndex(Renamed(m, scs), k, c, r.x.target.nodes[m[p]].children);
        RenamedChildStays(r, s, t, p, m[p]);
      }
    }
    assert forall s, t :: StaysAsMoved(r, {}, s, t);
  }

  lemma GraftKeepsOrder(r: Run, m: Renaming, p: NodeRef, k: nat, c: NodeRef, n: NodeRef)
    requires ByTwins(r) && Grafted(r.x.source, r.x.target, m, p, k, c)
    ensures forall t :: !Shuffled(r, n, t)
  {
    if n == p {
      var scs := r.x.source.nodes[p].children;
      ChildrenDistinct(r.x.target, m[p]);
      RootIsNoChild(r.x.source, p);
      PartnersFollow(r, m, scs);
      InsertionKeepsOrder(scs, Renamed(m, scs), r.x.Partners(), k, c);
      OnlyTwinHeads(r, p, m[p]);
    } else if n in r.x.source.nodes {
      SameChildrenNotShuffled(r, m, n);
    }
  }

  lemma GraftIsTopmost(r: Run, m: Renaming, p: NodeRef, k: nat, c: NodeRef)
    requires ByTwins(r) && Grafted(r.x.source, r.x.target, m, p, k, c)
    ensures TopmostTarget(r, c)
  {
    InsertedAtIndex(Renamed(m, r.x.source.nodes[p].children), k, c, r.x.target.nodes[m[p]].children);
    ParentFromChildren(r.x.target, m[p], c);
    assert Twin(r.x.source, r.x.target, p, m[p]);
    assert forall s :: !Twin(r.x.source, r.x.target, s, c);
  }

  lemma TopmostIsGraft(r: Run, m: Renaming, p: NodeRef, k: nat, c: NodeRef, t: NodeRef)
    requires ByTwins(r) && Grafted(r.x.source, r.x.target, m, p, k, c) && TopmostTarget(r, t)
    ensures t == c
  {
    var tp := r.x.target.nodes[t].parent.value;
    var sp :| Twin(r.x.source, r.x.target, sp, tp);
    ChildIffParent(r.x.target, t, tp);
    TwinlessIsNoValue(r, m, t);
    if sp != p {
      ChildHasTwin(r.x.source, r.x.target, m, sp, t);
    } else {
      RenamedMembers(m, r.x.source.nodes[p].children);
      InsertedAtIndex(Renamed(m, r.x.source.nodes[p].children), k, c, r.x.target.nodes[m[p]].children);
    }
  }

  lemma TwinlessIsNoValue(r: Run, m: Renaming, t: NodeRef)
    requires Embeds(r.x.source, r.x.target, m) && forall s :: !Twin(r.x.source, r.x.target, s, t)
    ensures t !in m.Values
  {
    forall s | s in m
      ensures m[s] != t
    {
      assert Twin(r.x.source, r.x.target, s, m[s]);
    }
  }

  /** The only structural fact is that one target node is new. */
  lemma ReportsOneInsert(r: Run, c: NodeRef)
    requires ByTwins(r) && StaysExcept(r, {})
    requires (forall s :: !TopmostSource(r, s)) && (forall t :: TopmostTarget(r, t) <==> t == c) &&
      forall n :: !ShuffledAt(r, n)
    ensures ReportsExactly(r, {InsertId(c)}, {})
  {
    ReportsFromStructure(r, {}, {InsertId(c)});
  }

  lemma EditedGrafted(r: Run, m: Renaming, p: NodeRef, k: nat, c: NodeRef)
    requires ByTwins(r) && Grafted(r.x.source, r.x.target, m, p, k, c)
    ensures ReportsExactly(r, {InsertId(c)}, {})
  {
    GraftKeepsParents(r, m, p, k, c);
    EverySourceHasTwin(r, m);
    GraftIsTopmost(r, m, p, k, c);
    forall t
      ensures TopmostTarget(r, t) <==> t == c
    {
      if TopmostTarget(r, t) { TopmostIsGraft(r, m, p, k, c, t); }
    }
    forall n
      ensures !ShuffledAt(r, n)
    {
      GraftKeepsOrder(r, m, p, k, c, n);
    }
    ReportsOneInsert(r, c);
  }

  // A deletion is a graft read backwards: `m` maps the surviving target nodes to the source.

  lemma PruneIsTwin(r: Run, m: Renaming, s: NodeRef, t: NodeRef)
    requires Embeds(r.x.target, r.x.source, m)
    ensures Twin(r.x.source, r.x.target, s, t) <==> t in m && m[t] == s
  {
    assert Twin(r.x.target, r.x.source, t, s) <==> Twin(r.x.source, r.x.target, s, t);
  }

  lemma PrunedChildStays(r: Run, m: Renaming, p: NodeRef, k: nat, c: NodeRef, t: NodeRef)
    requires ByTwins(r) && Grafted(r.x.target, r.x.source, m, p, k, c) && t in m && t != r.x.target.root
    ensures r.Stays(m[t], t)
  {
    var n := r.x.target.nodes[t].parent.value;
    ChildOfParent(r.x.target, t);
    PruneIsTwin(r, m, m[t], t);
    PruneIsTwin(r, m, m[n], n);
    RenamedMembers(m, r.x.target.nodes[n].children);
    if n == p { InsertedAtIndex(Renamed(m, r.x.target.nodes[p].children), k, c, r.x.source.nodes[m[p]].children); }
    RenamedChildStays(r, m[t], t, m[n], n);
  }

  lemma PruneKeepsParents(r: Run, m: Renaming, p: NodeRef, k: nat, c: NodeRef)
    requires ByTwins(r) && Grafted(r.x.target, r.x.source, m, p, k, c)
    ensures StaysExcept(r, {})
  {
    forall s, t | Twin(r.x.source, r.x.target, s, t) && s != r.x.source.root
      ensures r.Stays(s, t)
    {
      PruneIsTwin(r, m, s, t);
      PrunedChildStays(r, m, p, k, c, t);
    }
    assert forall s, t :: StaysAsMoved(r, {}, s, t);
  }

  lemma PrunedPartners(r: Run, m: Renaming, tcs: seq<NodeRef>)
    requires ByTwins(r) && Embeds(r.x.target, r.x.source, m) && forall x :: x in tcs ==> x in m
    requires r.x.target.root !in tcs
    ensures Follows(Renamed(m, tcs), tcs, r.x.Partners())
  {
    forall i | 0 <= i < |tcs|
      ensures r.x.Partners()(Renamed(m, tcs)[i]) == Some(tcs[i])
    {
      assert tcs[i] in tcs;
      PruneIsTwin(r, m, m[tcs[i]], tcs[i]);
      PartnerIsTwin(r, m[tcs[i]], tcs[i]);
    }
  }

  lemma KeptBackwards(r: Run, m: Renaming, n: NodeRef)
    requires ByTwins(r) && Embeds(r.x.target, r.x.source, m) && SameChildren(r.x.target, r.x.source, m, n)
    ensures !Inverted(r.x.source.nodes[m[n]].children, r.x.target.nodes[n].children, r.x.Partners())
  {
    ChildrenDistinct(r.x.target, n);
    RootIsNoChild(r.x.target, n);
    PrunedPartners(r, m, r.x.target.nodes[n].children);
    SameOrder(r.x.source.nodes[m[n]].children, r.x.target.nodes[n].children, r.x.Partners());
  }

  lemma PrunedHasNoPartner(r: Run, m: Renaming, c: NodeRef)
    requires ByTwins(r) && Embeds(r.x.target, r.x.source, m) && c !in m.Values
    ensures r.x.Partners()(c) == None
  {
    if r.x.Partners()(c).Some? {
      var t := r.x.Partners()(c).value;
      PartnerIsTwin(r, c, t);
      PruneIsTwin(r, m, c, t);
    }
  }

  lemma PrunedBackwards(r: Run, m: Renaming, p: NodeRef, k: nat, c: NodeRef)
    requires ByTwins(r) && Grafted(r.x.target, r.x.source, m, p, k, c)
    ensures !Inverted(r.x.source.nodes[m[p]].children, r.x.target.nodes[p].children, r.x.Partners())
  {
    var tcs := r.x.target.nodes[p].children;
    ChildrenDistinct(r.x.target, p);
    RootIsNoChild(r.x.target, p);
    PrunedPartners(r, m, tcs);
    PrunedHasNoPartner(r, m, c);
    ExtraChildKeepsOrder(Renamed(m, tcs), tcs, r.x.Partners(), k, c);
  }

  lemma PruneKeepsOrder(r: Run, m: Renaming, p: NodeRef, k: nat, c: NodeRef, s: NodeRef, t: NodeRef)
    requires ByTwins(r) && Grafted(r.x.target, r.x.source, m, p, k, c)
    ensures !Shuffled(r, s, t)
  {
    if r.x.Heads(s, t) {
      HeadsIffTwins(r, s, t);
      PruneIsTwin(r, m, s, t);
      if t == p { PrunedBackwards(r, m, p, k, c); } else { KeptBackwards(r, m, t); }
    }
  }

  lemma PrunedIsTopmost(r: Run, m: Renaming, p: NodeRef, k: nat, c: NodeRef)
    requires ByTwins(r) && Grafted(r.x.target, r.x.source, m, p, k, c)
    ensures TopmostSource(r, c)
  {
    InsertedAtIndex(Renamed(m, r.x.target.nodes[p].children), k, c, r.x.source.nodes[m[p]].children);
    ParentFromChildren(r.x.source, m[p], c);
    PruneIsTwin(r, m, m[p], p);
    forall t
      ensures !Twin(r.x.source, r.x.target, c, t)
    {
      PruneIsTwin(r, m, c, t);
    }
  }

  lemma TopmostIsPruned(r: Run, m: Renaming, p: NodeRef, k: nat, c: NodeRef, s: NodeRef)
    requires ByTwins(r) && Grafted(r.x.target, r.x.source, m, p, k, c) && TopmostSource(r, s)
    ensures s == c
  {
    var sp := r.x.source.nodes[s].parent.value;
    var tp :| Twin(r.x.source, r.x.target, sp, tp);
    PruneIsTwin(r, m, sp, tp);
    ChildIffParent(r.x.source, s, sp);
    forall t | t in m
      ensures m[t] != s
    {
      PruneIsTwin(r, m, s, t);
    }
    if tp != p {
      ChildHasTwin(r.x.target, r.x.source, m, tp, s);
    } else {
      RenamedMembers(m, r.x.target.nodes[p].children);
      InsertedAtIndex(Renamed(m, r.x.target.nodes[p].children), k, c, r.x.source.nodes[m[p]].children);
    }
  }

  /** The only structural fact is that one source node is gone. */
  lemma ReportsOneDelete(r: Run, c: NodeRef)
    requires ByTwins(r) && StaysExcept(r, {})
    requires (forall s :: TopmostSource(r, s) <==> s == c) && (forall t :: !TopmostTarget(r, t)) &&
      forall n :: !ShuffledAt(r, n)
    ensures ReportsExactly(r, {DeleteId(c)}, {})
  {
    ReportsFromStructure(r, {}, {DeleteId(c)});
  }

  lemma EditedPruned(r: Run, m: Renaming, p: NodeRef, k: nat, c: NodeRef)
    requires ByTwins(r) && Grafted(r.x.target, r.x.source, m, p, k, c)
    ensures ReportsExactly(r, {DeleteId(c)}, {})
  {
    PruneKeepsParents(r, m, p, k, c);
    PruneIsTwin(r, m, r.x.source.root, r.x.target.root);
    PrunedIsTopmost(r, m, p, k, c);
    forall s
      ensures TopmostSource(r, s) <==> s == c
    {
      if TopmostSource(r, s) { TopmostIsPruned(r, m, p, k, c, s); }
    }
    PrunedTargetsHaveTwins(r, m);
    forall n
      ensures !ShuffledAt(r, n)
    {
      forall t
        ensures !Shuffled(r, n, t)
      {
        PruneKeepsOrder(r, m, p, k, c, n, t);
      }
    }
    ReportsOneDelete(r, c);
  }

  lemma PrunedTargetsHaveTwins(r: Run, m: Renaming)
    requires Embeds(r.x.target, r.x.source, m)
    ensures forall t :: !TopmostTarget(r, t)
  {
    forall t | t in m
      ensures Twin(r.x.source, r.x.target, m[t], t)
    {
      PruneIsTwin(r, m, m[t], t);
    }
  }

  // ---------------------------------------------------------------- permutation

  lemma PermuteKeepsParents(r: Run, m: Renaming, p: NodeRef)
    requires ByTwins(r) && Permuted(r.x.source, r.x.target, m, p)
    ensures StaysExcept(r, {})
  {
    forall s, t | Twin(r.x.source, r.x.target, s, t) && s != r.x.source.root
      ensures r.Stays(s, t)
    {
      ChildOfParent(r.x.source, s);
      var n := r.x.source.nodes[s].parent.value;
      if n != p {
        ChildStays(r, m, n, s);
      } else {
        var scs := r.x.source.nodes[p].children;
        RenamedMembers(m, scs);
        assert t in multiset(Renamed(m, scs));
        RenamedChildStays(r, s, t, p, m[p]);
      }
    }
    assert forall s, t :: StaysAsMoved(r, {}, s, t);
  }

  lemma RenamingInjective(r: Run, m: Renaming)
    requires ByTwins(r) && Embeds(r.x.source, r.x.target, m)
    ensures forall a, b :: a in m && b in m && m[a] == m[b] ==> a == b
  {
    forall a, b | a in m && b in m && m[a] == m[b]
      ensures a == b
    {
      TwinsOfTwin(r, a, m[a], b, m[b]);
    }
  }

  lemma RenamedDistinct(m: Renaming, xs: seq<NodeRef>)
    requires Distinct(xs) && forall x :: x in xs ==> x in m
    requires forall a, b :: a in m && b in m && m[a] == m[b] ==> a == b
    ensures Distinct(Renamed(m, xs))
  {
    forall i, j | 0 <= i < j < |xs|
      ensures m[xs[i]] != m[xs[j]]
    {
      assert xs[i] in xs && xs[j] in xs;
    }
  }

  /** Any change of order is an inversion of matched siblings. */
  lemma PermuteInverts(r: Run, m: Renaming, p: NodeRef)
    requires ByTwins(r) && Permuted(r.x.source, r.x.target, m, p)
    ensures Inverted(r.x.source.nodes[p].children, r.x.target.nodes[m[p]].children, r.x.Partners())
  {
    var scs := r.x.source.nodes[p].children;
    RenamingInjective(r, m);
    RenamedDistinct(m, scs);
    ChildrenDistinct(r.x.target, m[p]);
    RootIsNoChild(r.x.source, p);
    PartnersFollow(r, m, scs);
    OtherOrderInverts(scs, Renamed(m, scs), r.x.target.nodes[m[p]].children, r.x.Partners());
  }

  lemma PermuteShuffles(r: Run, m: Renaming, p: NodeRef, n: NodeRef)
    requires ByTwins(r) && Permuted(r.x.source, r.x.target, m, p)
    ensures ShuffledAt(r, n) <==> n == p && r.x.profile.OrderedFor(r.x.source.nodes[p].nodeType)
  {
    if n == p {
      PermuteInverts(r, m, p);
      assert Twin(r.x.source, r.x.target, p, m[p]) && r.x.Heads(p, m[p]);
      if r.x.profile.OrderedFor(r.x.source.nodes[p].nodeType) { assert Shuffled(r, p, m[p]); }
    } else if n in r.x.source.nodes {
      SameChildrenNotShuffled(r, m, n);
    }
  }

  /** The only structural fact is that `p` may be shuffled. */
  lemma ReportsOneReorder(r: Run, p: NodeRef, ordered: bool)
    requires ByTwins(r) && StaysExcept(r, {})
    requires (forall s :: !TopmostSource(r, s)) && (forall t :: !TopmostTarget(r, t))
    requires forall n :: ShuffledAt(r, n) <==> n == p && ordered
    ensures ReportsExactly(r, if ordered then {ReorderId(p)} else {}, {})
  {
    ReportsFromStructure(r, {}, if ordered then {ReorderId(p)} else {});
  }

  lemma EditedPermuted(r: Run, m: Renaming, p: NodeRef)
    requires ByTwins(r) && Permuted(r.x.source, r.x.target, m, p)
    ensures ReportsExactly(r, if r.x.profile.OrderedFor(r.x.source.nodes[p].nodeType) then {ReorderId(p)} else {}, {})
  {
    var ordered := r.x.profile.OrderedFor(r.x.source.nodes[p].nodeType);
    PermuteKeepsParents(r, m, p);
    EverySourceHasTwin(r, m);
    EveryTargetHasTwin(r, m);
    forall n
      ensures ShuffledAt(r, n) <==> n == p && ordered
    {
      PermuteShuffles(r, m, p, n);
    }
    ReportsOneReorder(r, p, ordered);
  }

  // ---------------------------------------------------------------- relocation

  lemma RelocatedCrosses(r: Run, m: Renaming, p: NodeRef, j: nat, q: NodeRef, k: nat)
    requires ByTwins(r) && Relocated(r.x.source, r.x.target, m, p, j, q, k)
    ensures var c := r.x.source.nodes[p].children[j];
      c in m && Twin(r.x.source, r.x.target, c, m[c]) && c != r.x.source.root && !r.Stays(c, m[c])
  {
    var c := r.x.source.nodes[p].children[j];
    assert c in r.x.source.nodes[p].children;
    ParentFromChildren(r.x.source, p, c);
    InsertedAtIndex(Renamed(m, r.x.source.nodes[q].children), k, m[c], r.x.target.nodes[m[q]].children);
    ParentFromChildren(r.x.target, m[q], m[c]);
    TwinsOfTwin(r, p, m[p], q, m[q]);
    OnlyTwinHeads(r, p, m[p]);
  }

  lemma RelocatedRestStays(r: Run, m: Renaming, p: NodeRef, j: nat, q: NodeRef, k: nat, s: NodeRef, t: NodeRef)
    requires ByTwins(r) && Relocated(r.x.source, r.x.target, m, p, j, q, k)
    requires Twin(r.x.source, r.x.target, s, t) && s != r.x.source.root && s != r.x.source.nodes[p].children[j]
    ensures r.Stays(s, t)
  {
    ChildOfParent(r.x.source, s);
    var n := r.x.source.nodes[s].parent.value;
    if n != p && n != q {
      ChildStays(r, m, n, s);
    } else {
      RelocatedChildKept(r.x.source, r.x.target, m, p, j, q, k, n, s);
      RenamedChildStays(r, s, t, n, m[n]);
    }
  }

  lemma RelocatedChildKept(
    a: Tree, b: Tree, m: Renaming, p: NodeRef, j: nat, q: NodeRef, k: nat, n: NodeRef, s: NodeRef)
    requires Relocated(a, b, m, p, j, q, k) && (n == p || n == q) && s in a.nodes[n].children
    requires s != a.nodes[p].children[j]
    ensures m[s] in b.nodes[m[n]].children
  {
    var scs := a.nodes[n].children;
    RenamedMembers(m, scs);
    if n == p {
      WithoutAtIndex(Renamed(m, scs), j, b.nodes[m[p]].children);
      var i :| 0 <= i < |scs| && scs[i] == s;
      assert Renamed(m, scs)[i] == m[s];
    } else {
      InsertedAtIndex(Renamed(m, scs), k, m[a.nodes[p].children[j]], b.nodes[m[q]].children);
    }
  }

  lemma RelocatedOrderAtOrigin(r: Run, m: Renaming, p: NodeRef, j: nat, q: NodeRef, k: nat)
    requires ByTwins(r) && Relocated(r.x.source, r.x.target, m, p, j, q, k)
    ensures !Inverted(r.x.source.nodes[p].children, r.x.target.nodes[m[p]].children, r.x.Partners())
  {
    var scs := r.x.source.nodes[p].children;
    RenamingInjective(r, m);
    RenamedDistinct(m, scs);
    RootIsNoChild(r.x.source, p);
    PartnersFollow(r, m, scs);
    RemovalKeepsOrder(scs, Renamed(m, scs), r.x.Partners(), j);
  }

  lemma RelocatedOrderAtDestination(r: Run, m: Renaming, p: NodeRef, j: nat, q: NodeRef, k: nat)
    requires ByTwins(r) && Relocated(r.x.source, r.x.target, m, p, j, q, k)
    ensures !Inverted(r.x.source.nodes[q].children, r.x.target.nodes[m[q]].children, r.x.Partners())
  {
    var scs := r.x.source.nodes[q].children;
    ChildrenDistinct(r.x.target, m[q]);
    RootIsNoChild(r.x.source, q);
    PartnersFollow(r, m, scs);
    InsertionKeepsOrder(scs, Renamed(m, scs), r.x.Partners(), k, m[r.x.source.nodes[p].children[j]]);
  }

  lemma RelocatedKeepsOrder(r: Run, m: Renaming, p: NodeRef, j: nat, q: NodeRef, k: nat, n: NodeRef)
    requires ByTwins(r) && Relocated(r.x.source, r.x.target, m, p, j, q, k)
    ensures forall t :: !Shuffled(r, n, t)
  {
    if n == p {
      RelocatedOrderAtOrigin(r, m, p, j, q, k);
      OnlyTwinHeads(r, p, m[p]);
    } else if n == q {
      RelocatedOrderAtDestination(r, m, p, j, q, k);
      OnlyTwinHeads(r, q, m[q]);
    } else if n in r.x.source.nodes {
      SameChildrenNotShuffled(r, m, n);
    }
  }

  /** The only structural fact is that one pair crosses parents. */
  lemma ReportsOneMove(r: Run, c: NodeRef, t: NodeRef)
    requires ByTwins(r) && StaysExcept(r, {c})
    requires (forall s :: !TopmostSource(r, s)) && (forall t :: !TopmostTarget(r, t)) && forall n :: !ShuffledAt(r, n)
    requires Twin(r.x.source, r.x.target, c, t) && c != r.x.source.root
    ensures ReportsExactly(r, {MoveId(c, t)}, {c})
  {
    forall t2 | Twin(r.x.source, r.x.target, c, t2)
      ensures t2 == t
    {
      TwinsOfTwin(r, c, t, c, t2);
    }
    ReportsFromStructure(r, {c}, {MoveId(c, t)});
  }

  lemma AllButOneStay(r: Run, c: NodeRef, t: NodeRef)
    requires !r.Stays(c, t) && forall t2 :: Twin(r.x.source, r.x.target, c, t2) ==> t2 == t
    requires forall s, t :: Twin(r.x.source, r.x.target, s, t) && s != r.x.source.root && s != c ==> r.Stays(s, t)
    ensures StaysExcept(r, {c})
  {
  }

  lemma RelocationKeepsOtherParents(r: Run, m: Renaming, p: NodeRef, j: nat, q: NodeRef, k: nat)
    requires ByTwins(r) && Relocated(r.x.source, r.x.target, m, p, j, q, k)
    ensures StaysExcept(r, {r.x.source.nodes[p].children[j]})
  {
    var c := r.x.source.nodes[p].children[j];
    RelocatedCrosses(r, m, p, j, q, k);
    forall s, t | Twin(r.x.source, r.x.target, s, t) && s != r.x.source.root && s != c
      ensures r.Stays(s, t)
    {
      RelocatedRestStays(r, m, p, j, q, k, s, t);
    }
    AllButOneStay(r, c, m[c]);
  }

  lemma EditedRelocated(r: Run, m: Renaming, p: NodeRef, j: nat, q: NodeRef, k: nat)
    requires ByTwins(r) && Relocated(r.x.source, r.x.target, m, p, j, q, k)
    ensures var c := r.x.source.nodes[p].children[j];
      c in m && ReportsExactly(r, {MoveId(c, m[c])}, {c})
  {
    var c := r.x.source.nodes[p].children[j];
    RelocatedCrosses(r, m, p, j, q, k);
    RelocationKeepsOtherParents(r, m, p, j, q, k);
    EverySourceHasTwin(r, m);
    EveryTargetHasTwin(r, m);
    forall n
      ensures !ShuffledAt(r, n)
    {
      RelocatedKeepsOrder(r, m, p, j, q, k, n);
    }
    ReportsOneMove(r, c, m[c]);
  }

  // ---------------------------------------------------------------- the headline

  /** One structural edit of the source tree. */
  datatype Edit =
    | NoEdit
    | InsertSubtree(parent: NodeRef, at: nat, child: NodeRef)
    | DeleteSubtree(parent: NodeRef, at: nat, child: NodeRef)
    | MoveSubtree(parent: NodeRef, at: nat, newParent: NodeRef, newAt: nat)
    | PermuteChildren(parent: NodeRef)
  {
    /** `target` is the outcome of the edit, up to handles and content; `m` renames the survivors. */
    ghost predicate Yields(source: Tree, target: Tree, m: Renaming)
    {
      match this
      case NoEdit => Unedited(source, target, m)
      case InsertSubtree(p, k, c) => Grafted(source, target, m, p, k, c)
      case DeleteSubtree(p, k, c) => Grafted(target, source, m, p, k, c)
      case MoveSubtree(p, j, q, k) => Relocated(source, target, m, p, j, q, k)
      case PermuteChildren(p) => Permuted(source, target, m, p)
    }

    /** Where one tree has more nodes than the other, the roots must be identified as well. */
    ghost predicate RootsIdentified(source: Tree, target: Tree)
    {
      InsertSubtree? || DeleteSubtree? ==> SameId(source, target, source.root, target.root)
    }

    /** One operation names the edit; none for a reordering where order does not matter. */
    ghost predicate ReportedBy(r: Run, m: Renaming)
    {
      match this
      case NoEdit => ReportsExactly(r, {}, {})
      case InsertSubtree(_, _, c) => ReportsExactly(r, {InsertId(c)}, {})
      case DeleteSubtree(_, _, c) => ReportsExactly(r, {DeleteId(c)}, {})
      case MoveSubtree(p, j, _, _) => ReportsOneMoveOf(r, m, p, j)
      case PermuteChildren(p) => ReportsReorderIfOrdered(r, p)
    }
  }

  ghost predicate ReportsOneMoveOf(r: Run, m: Renaming, p: NodeRef, j: nat)
  {
    p in r.x.source.nodes && j < |r.x.source.nodes[p].children| &&
    var c := r.x.source.nodes[p].children[j];
    c in m && ReportsExactly(r, {MoveId(c, m[c])}, {c})
  }

  ghost predicate ReportsReorderIfOrdered(r: Run, p: NodeRef)
  {
    p in r.x.source.nodes &&
    ReportsExactly(r, if r.x.profile.OrderedFor(r.x.source.nodes[p].nodeType) then {ReorderId(p)} else {}, {})
  }

  lemma EmbeddedIsCovered(a: Tree, b: Tree, m: Renaming)
    requires Embeds(a, b, m)
    ensures forall n :: n in a.nodes && n != a.root ==> exists t :: SameId(a, b, n, t)
  {
    forall n | n in a.nodes && n != a.root
      ensures SameId(a, b, n, m[n])
    {
      assert Twin(a, b, n, m[n]);
    }
  }

  lemma EmbeddingCovers(a: Tree, b: Tree, m: Renaming)
    requires Embeds(a, b, m) && m.Values == b.nodes.Keys
    ensures BothSidesCovered(a, b)
  {
    EmbeddedIsCovered(a, b, m);
    forall t | t in b.nodes && t != b.root
      ensures exists n :: SameId(a, b, n, t)
    {
      var n :| n in m && m[n] == t;
      assert Twin(a, b, n, t);
    }
  }

  lemma EditCovers(e: Edit, source: Tree, target: Tree, m: Renaming)
    requires e.Yields(source, target, m) && e.RootsIdentified(source, target)
    ensures OneSideCovered(source, target) || BothSidesCovered(source, target)
  {
    if e.DeleteSubtree? {
      EmbeddedIsCovered(target, source, m);
      forall t | t in target.nodes
        ensures exists s :: SameId(source, target, s, t)
      {
        if t != target.root {
          var s :| SameId(target, source, t, s);
          assert SameId(source, target, s, t);
        }
      }
    } else if e.InsertSubtree? {
      EmbeddedIsCovered(source, target, m);
    } else {
      EmbeddingCovers(source, target, m);
    }
  }

  lemma EditIsReported(r: Run, e: Edit, m: Renaming)
    requires ByTwins(r) && e.Yields(r.x.source, r.x.target, m)
    ensures e.ReportedBy(r, m)
  {
    match e
    case NoEdit => EditedUnedited(r, m);
    case InsertSubtree(p, k, c) => EditedGrafted(r, m, p, k, c);
    case DeleteSubtree(p, k, c) => EditedPruned(r, m, p, k, c);
    case MoveSubtree(p, j, q, k) => EditedRelocated(r, m, p, j, q, k);
    case PermuteChildren(p) => EditedPermuted(r, m, p);
  }

  /**
   * One edit, one operation: if ids are authoritative and identify the source nodes, the pipeline
   * reports the operation that names the edit, a MATCH or UPDATE for every other surviving non-root
   * node, and nothing else, under every presence policy.
   */
  lemma OneEditOneOperation(z: Reconciliation, e: Edit, m: Renaming)
    requires z.Produced() && z.run.profile.AllEnabled() && PersistentId in z.input.profile.authoritative
    requires Identified(z.run.x.source, z.run.x.target)
    requires e.Yields(z.run.x.source, z.run.x.target, m) && e.RootsIdentified(z.run.x.source, z.run.x.target)
    ensures e.ReportedBy(z.run, m)
  {
    EditCovers(e, z.run.x.source, z.run.x.target, m);
    IdentifiedRunIsByTwins(z);
    EditIsReported(z.run, e, m);
  }

  // ---------------------------------------------------------------- a tree against itself

  /** Below the root every node has an id, and no id occurs twice. */
  ghost predicate UniqueIds(t: Tree)
  {
    (forall n :: n in t.nodes && n != t.root ==> PersistentIdOf(t.nodes[n]).Some?) &&
    forall n, n2 | n in t.nodes && n2 in t.nodes && PersistentIdOf(t.nodes[n]).Some? ::
      PersistentIdOf(t.nodes[n]) == PersistentIdOf(t.nodes[n2]) ==> n == n2
  }

  lemma SelfIsUnedited(t: Tree)
    requires t.Valid() && UniqueIds(t)
    ensures Identified(t, t) && Unedited(t, t, map n | n in t.nodes :: n)
  {
    var m := map n | n in t.nodes :: n;
    forall n | n in t.nodes
      ensures SameChildren(t, t, m, n)
    {
      assert t.LinksAt(n);
      assert Renamed(m, t.nodes[n].children) == t.nodes[n].children;
    }
  }

  ghost predicate NamesSelfMatch(t: Tree, id: OperationId)
  {
    id.MatchedId? && id.source == id.target && id.source in t.nodes && id.source != t.root
  }

  lemma SelfRoutine(r: Run, id: OperationId)
    requires r.x.target == r.x.source && UniqueIds(r.x.source)
    ensures Routine(r, id) <==> NamesSelfMatch(r.x.source, id)
  {
  }

  lemma NothingElse(r: Run, id: OperationId)
    requires ReportsExactly(r, {}, {})
    ensures r.Emits(id) <==> Routine(r, id)
  {
  }

  /** A tree compared with itself yields one MATCH per non-root node and nothing else. */
  lemma SelfComparisonIsAllMatch(z: Reconciliation, id: OperationId)
    requires z.Produced() && z.run.profile.AllEnabled() && PersistentId in z.input.profile.authoritative
    requires z.run.x.target == z.run.x.source && UniqueIds(z.run.x.source)
    ensures z.run.Emits(id) <==> NamesSelfMatch(z.run.x.source, id)
  {
    var t := z.run.x.source;
    SelfIsUnedited(t);
    OneEditOneOperation(z, NoEdit, map n | n in t.nodes :: n);
    NothingElse(z.run, id);
    SelfRoutine(z.run, id);
  }
}
