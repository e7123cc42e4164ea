/** The second matching phase: score rows, ambiguous edges, greedy confirmation. */
module Similarity {
  import opened Ordering
  import opened Contest

  datatype Scored = Scored(value: real, ref: NodeRef)

  datatype Offer = Offer(value: real, source: NodeRef, target: NodeRef)

  /** Row order: higher scores first, equal scores by reference. */
  predicate ScoredFirst(a: Scored, b: Scored)
  {
    a.value > b.value || (a.value == b.value && !Below(b.ref, a.ref))
  }

  /** Confirmation order: higher scores first, then by source, then by target. */
  predicate OfferFirst(a: Offer, b: Offer)
  {
    a.value > b.value ||
    (a.value == b.value &&
      (Below(a.source, b.source) || (a.source == b.source && !Below(b.target, a.target))))
  }

  lemma ScoredOrder()
    ensures TotalPreorder(ScoredFirst)
  {
    forall a, b
      ensures ScoredFirst(a, b) || ScoredFirst(b, a)
    {
      BelowTotal(a.ref, b.ref);
    }
    forall a, b, c | ScoredFirst(a, b) && ScoredFirst(b, c)
      ensures ScoredFirst(a, c)
    {
      if a.value == b.value == c.value { NotBelowTransitive(a.ref, b.ref, c.ref); }
    }
  }

  lemma NotBelowTransitive(a: string, b: string, c: string)
    requires !Below(b, a) && !Below(c, b)
    ensures !Below(c, a)
  {
    BelowTotal(a, b);
    BelowTotal(b, c);
    BelowTotal(a, c);
    if Below(a, b) && Below(b, c) { BelowTransitive(a, b, c); }
  }

  lemma OfferOrder()
    ensures TotalPreorder(OfferFirst)
  {
    forall a, b
      ensures OfferFirst(a, b) || OfferFirst(b, a)
    {
      BelowTotal(a.source, b.source);
      BelowTotal(a.target, b.target);
    }
    forall a, b, c | OfferFirst(a, b) && OfferFirst(b, c)
      ensures OfferFirst(a, c)
    {
      if Below(a.source, b.source) && Below(b.source, c.source) {
        BelowTransitive(a.source, b.source, c.source);
      }
      if a.source == b.source == c.source && a.value == b.value == c.value {
        BelowTotal(a.source, b.source);
        NotBelowTransitive(a.target, b.target, c.target);
      }
    }
  }

  // ---------------------------------------------------------------- rows

  /** The plausible targets of `s` with their scores, best first. */
  ghost predicate IsRow(c: Contest, s: NodeRef, row: seq<Scored>)
  {
    (forall k :: 0 <= k < |row| ==> c.Plausible(s, row[k].ref) && row[k].value == c.value(s, row[k].ref)) &&
    (forall t :: c.Plausible(s, t) ==> Scored(c.value(s, t), t) in row) &&
    Distinct(row) && OrderedBy(ScoredFirst, row)
  }

  method ScoreRow(c: Contest, s: NodeRef, targets: seq<NodeRef>) returns (row: seq<Scored>)
    requires s in c.sources && Distinct(targets)
    requires forall t :: t in targets <==> t in c.targets
    ensures IsRow(c, s, row)
  {
    var found: seq<Scored> := [];
    for j := 0 to |targets|
      invariant forall k :: 0 <= k < |found| ==>
        c.Plausible(s, found[k].ref) && found[k].value == c.value(s, found[k].ref) && found[k].ref in targets[..j]
      invariant forall i :: 0 <= i < j && c.Plausible(s, targets[i]) ==>
        Scored(c.value(s, targets[i]), targets[i]) in found
      invariant Distinct(found)
    {
      assert targets[j] !in targets[..j];
      assert targets[..j + 1] == targets[..j] + [targets[j]];
      if c.admissible(s, targets[j]) {
        var value := c.value(s, targets[j]);
        if value >= c.probable {
          found := found + [Scored(value, targets[j])];
        }
      }
    }
    ScoredOrder();
    row := Sort(ScoredFirst, found);
    forall k | 0 <= k < |row|
      ensures c.Plausible(s, row[k].ref) && row[k].value == c.value(s, row[k].ref)
    {
      assert row[k] in found;
    }
    forall t | c.Plausible(s, t)
      ensures Scored(c.value(s, t), t) in row
    {
      assert t in targets;
    }
  }

  /** The head of a row is the top pick. */
  lemma RowHead(c: Contest, s: NodeRef, row: seq<Scored>)
    requires IsRow(c, s, row) && row != []
    ensures c.TopPick(s, row[0].ref) && row[0].value == c.value(s, row[0].ref)
  {
    forall t | c.Plausible(s, t)
      ensures c.value(s, t) < row[0].value || (c.value(s, t) == row[0].value && !Below(t, row[0].ref))
    {
      var k :| 0 <= k < |row| && row[k] == Scored(c.value(s, t), t);
      if k > 0 { assert ScoredFirst(row[0], row[k]); } else { BelowTotal(t, t); }
    }
    forall t | c.AtBest(s, t) && t != row[0].ref
      ensures Below(row[0].ref, t)
    {
      BelowTotal(t, row[0].ref);
    }
  }

  lemma RowEmpty(c: Contest, s: NodeRef, row: seq<Scored>)
    requires IsRow(c, s, row)
    ensures row == [] <==> forall t :: !c.Plausible(s, t)
  {
    if row != [] { assert c.Plausible(s, row[0].ref); }
  }

  /** Above the threshold, the entries within the margin of the head are the near targets. */
  lemma RowNear(c: Contest, s: NodeRef, row: seq<Scored>, t: NodeRef)
    requires c.Valid() && IsRow(c, s, row)
    ensures c.Near(s, t) <==>
      row != [] && row[0].value >= c.threshold && c.Plausible(s, t) && row[0].value - c.value(s, t) <= c.margin
  {
    RowEmpty(c, s, row);
    if row != [] {
      RowHead(c, s, row);
    }
  }

  /** The source-side test on the first two entries finds exactly the source-side edges. */
  lemma RowAmbiguous(c: Contest, s: NodeRef, row: seq<Scored>, t: NodeRef)
    requires c.Valid() && IsRow(c, s, row)
    ensures c.SourceEdge(s, t) <==>
      |row| >= 2 && row[0].value >= c.threshold && row[0].value - row[1].value <= c.margin &&
      c.Plausible(s, t) && row[0].value - c.value(s, t) <= c.margin
  {
    RowNear(c, s, row, t);
    if |row| >= 2 {
      RowNear(c, s, row, row[0].ref);
      RowNear(c, s, row, row[1].ref);
    }
    if c.SourceEdge(s, t) {
      var t2 :| t2 != t && c.Near(s, t2);
      RowNear(c, s, row, t2);
      SecondIsNext(c, s, row, t, t2);
    }
  }

  lemma SecondIsNext(c: Contest, s: NodeRef, row: seq<Scored>, t: NodeRef, t2: NodeRef)
    requires IsRow(c, s, row) && c.Plausible(s, t) && c.Plausible(s, t2) && t != t2
    ensures |row| >= 2 && (c.value(s, t) <= row[1].value || c.value(s, t2) <= row[1].value)
  {
    var k :| 0 <= k < |row| && row[k] == Scored(c.value(s, t), t);
    var m :| 0 <= m < |row| && row[m] == Scored(c.value(s, t2), t2);
    assert forall j :: 1 < j < |row| ==> ScoredFirst(row[1], row[j]);
  }

  type Rows = map<NodeRef, seq<Scored>>

  ghost predicate AreRows(c: Contest, rows: Rows)
  {
    rows.Keys == c.sources && forall s :: s in rows ==> IsRow(c, s, rows[s])
  }

  method ScoreRows(c: Contest, sources: seq<NodeRef>, targets: seq<NodeRef>) returns (rows: Rows)
    requires Distinct(targets) && forall t :: t in targets <==> t in c.targets
    requires forall s :: s in sources <==> s in c.sources
    ensures AreRows(c, rows)
  {
    rows := map[];
    for i := 0 to |sources|
      invariant rows.Keys == set s | s in sources[..i]
      invariant forall s :: s in rows ==> s in c.sources && IsRow(c, s, rows[s])
    {
      assert sources[..i + 1] == sources[..i] + [sources[i]];
      var row := ScoreRow(c, sources[i], targets);
      rows := rows[sources[i] := row];
    }
    assert sources[..|sources|] == sources;
  }

  // ---------------------------------------------------------------- ambiguous edges

  method SourceEdges(c: Contest, rows: Rows, sources: seq<NodeRef>) returns (edges: set<(NodeRef, NodeRef)>)
    requires c.Valid() && AreRows(c, rows)
    requires forall s :: s in sources <==> s in c.sources
    ensures forall s, t :: (s, t) in edges <==> c.SourceEdge(s, t)
  {
    edges := {};
    for i := 0 to |sources|
      invariant forall s, t :: (s, t) in edges <==> s in sources[..i] && c.SourceEdge(s, t)
    {
      assert sources[..i + 1] == sources[..i] + [sources[i]];
      var s := sources[i];
      var row := rows[s];
      var found := {};
      if |row| >= 2 && row[0].value >= c.threshold && row[0].value - row[1].value <= c.margin {
        found := set k | 0 <= k < |row| && row[0].value - row[k].value <= c.margin :: (s, row[k].ref);
      }
      forall t
        ensures (s, t) in found <==> c.SourceEdge(s, t)
      {
        RowAmbiguous(c, s, row, t);
        if c.Plausible(s, t) { assert Scored(c.value(s, t), t) in row; }
      }
      edges := edges + found;
    }
    assert sources[..|sources|] == sources;
  }

  /** The row of `s` starts, above the threshold, with `t`. */
  predicate Picks(rows: Rows, threshold: real, s: NodeRef, t: NodeRef)
  {
    s in rows && rows[s] != [] && rows[s][0].value >= threshold && rows[s][0].ref == t
  }

  lemma PicksAreContenders(c: Contest, rows: Rows, s: NodeRef, t: NodeRef)
    requires AreRows(c, rows)
    ensures Picks(rows, c.threshold, s, t) <==> c.Contends(s, t)
    ensures Picks(rows, c.threshold, s, t) ==> rows[s][0].value == c.value(s, t)
  {
    if s in rows {
      var row := rows[s];
      RowEmpty(c, s, row);
      if row != [] {
        RowHead(c, s, row);
        if c.TopPick(s, t) { PickUnique(c, s, t, row[0].ref); }
      }
    }
  }

  /** `list` holds, once each, the heads of the sources in `sources` that pick `t`. */
  ghost predicate ListsPicks(rows: Rows, threshold: real, sources: seq<NodeRef>, t: NodeRef, list: seq<Scored>)
  {
    (forall k | 0 <= k < |list| ::
      list[k].ref in sources && Picks(rows, threshold, list[k].ref, t) &&
      list[k].value == rows[list[k].ref][0].value) &&
    (forall i :: 0 <= i < |sources| && Picks(rows, threshold, sources[i], t) ==>
      Scored(rows[sources[i]][0].value, sources[i]) in list) &&
    Distinct(list)
  }

  lemma PickSkipped(rows: Rows, threshold: real, sources: seq<NodeRef>, s: NodeRef, t: NodeRef, list: seq<Scored>)
    requires ListsPicks(rows, threshold, sources, t, list) && !Picks(rows, threshold, s, t)
    ensures ListsPicks(rows, threshold, sources + [s], t, list)
  {
  }

  lemma PickAppended(rows: Rows, threshold: real, sources: seq<NodeRef>, s: NodeRef, t: NodeRef, list: seq<Scored>)
    requires ListsPicks(rows, threshold, sources, t, list) && Picks(rows, threshold, s, t) && s !in sources
    ensures ListsPicks(rows, threshold, sources + [s], t, list + [Scored(rows[s][0].value, s)])
  {
  }

  function PicksOf(byTarget: map<NodeRef, seq<Scored>>, t: NodeRef): seq<Scored>
  {
    if t in byTarget then byTarget[t] else []
  }

  ghost predicate GroupsPicks(rows: Rows, threshold: real, sources: seq<NodeRef>, byTarget: map<NodeRef, seq<Scored>>)
  {
    forall t {:trigger PicksOf(byTarget, t)} :: ListsPicks(rows, threshold, sources, t, PicksOf(byTarget, t))
  }

  /** The entry that the head of a row adds to its target, if it clears the threshold. */
  method AddPick(rows: Rows, threshold: real, ghost done: seq<NodeRef>, s: NodeRef, byTarget: map<NodeRef, seq<Scored>>)
    returns (more: map<NodeRef, seq<Scored>>)
    requires s in rows && s !in done && GroupsPicks(rows, threshold, done, byTarget)
    ensures GroupsPicks(rows, threshold, done + [s], more)
  {
    more := byTarget;
    if rows[s] != [] && rows[s][0].value >= threshold {
      var t := rows[s][0].ref;
      more := more[t := (if t in more then more[t] else []) + [Scored(rows[s][0].value, s)]];
    }
    forall t
      ensures ListsPicks(rows, threshold, done + [s], t, PicksOf(more, t))
    {
      var list := PicksOf(byTarget, t);
      if Picks(rows, threshold, s, t) {
        PickAppended(rows, threshold, done, s, t, list);
      } else {
        PickSkipped(rows, threshold, done, s, t, list);
      }
    }
  }

  method GroupByPick(rows: Rows, threshold: real, sources: seq<NodeRef>) returns (byTarget: map<NodeRef, seq<Scored>>)
    requires Distinct(sources) && forall i :: 0 <= i < |sources| ==> sources[i] in rows
    ensures GroupsPicks(rows, threshold, sources, byTarget)
  {
    byTarget := map[];
    for i := 0 to |sources|
      invariant GroupsPicks(rows, threshold, sources[..i], byTarget)
    {
      assert sources[..i + 1] == sources[..i] + [sources[i]];
      byTarget := AddPick(rows, threshold, sources[..i], sources[i], byTarget);
    }
    assert sources[..|sources|] == sources;
  }

  /** Contenders within the margin of the best, provided there are at least two of them. */
  ghost predicate InBand(list: seq<Scored>, margin: real, e: Scored)
  {
    e in list && forall d :: d in list ==> d.value - e.value <= margin
  }

  method CloseContenders(list: seq<Scored>, margin: real) returns (close: set<NodeRef>)
    requires forall d, e :: d in list && e in list && d.ref == e.ref ==> d == e
    ensures forall s :: s in close <==>
      exists d, e :: InBand(list, margin, d) && InBand(list, margin, e) && d.ref == s && e.ref != s
  {
    if |list| < 2 {
      return {};
    }
    ScoredOrder();
    var ranked := Sort(ScoredFirst, list);
    var top := ranked[0].value;
    var band := set e | e in ranked && top - e.value <= margin;
    RankedBand(list, ranked, margin);
    if |band| >= 2 {
      close := set e | e in band :: e.ref;
    } else {
      close := {};
    }
    assert forall e :: e in band <==> InBand(list, margin, e);
    forall s
      ensures s in close <==>
        exists d, e :: InBand(list, margin, d) && InBand(list, margin, e) && d.ref == s && e.ref != s
    {
      PairRefs(band, s);
      assert s in close <==> exists d, e :: d in band && e in band && d.ref == s && e.ref != s;
    }
  }

  lemma PairRefs(band: set<Scored>, s: NodeRef)
    requires forall d, e :: d in band && e in band && d.ref == e.ref ==> d == e
    ensures (exists d, e :: d in band && e in band && d.ref == s && e.ref != s) <==>
      |band| >= 2 && exists d :: d in band && d.ref == s
  {
    if d, e :| d in band && e in band && d.ref == s && e.ref != s {
      TwoInBand(band, d, e);
    }
    if d :| |band| >= 2 && d in band && d.ref == s {
      var e := OtherInBand(band, d);
    }
  }

  lemma RankedBand(list: seq<Scored>, ranked: seq<Scored>, margin: real)
    requires ranked != [] && OrderedBy(ScoredFirst, ranked) && forall e :: e in ranked <==> e in list
    ensures forall e :: InBand(list, margin, e) <==> e in ranked && ranked[0].value - e.value <= margin
  {
    FirstIsHighest(ranked);
    assert ranked[0] in ranked;
  }

  lemma TwoInBand(band: set<Scored>, d: Scored, e: Scored)
    requires d in band && e in band && d != e
    ensures |band| >= 2
  {
    SubsetSize({d, e}, band);
  }

  lemma OtherInBand(band: set<Scored>, d: Scored) returns (e: Scored)
    requires |band| >= 2 && d in band
    ensures e in band && e != d
  {
    assert |band - {d}| >= 1;
    e :| e in band - {d};
  }

  lemma FirstIsHighest(ranked: seq<Scored>)
    requires ranked != [] && OrderedBy(ScoredFirst, ranked)
    ensures forall d :: d in ranked ==> d.value <= ranked[0].value
  {
    forall k | 0 < k < |ranked|
      ensures ranked[k].value <= ranked[0].value
    {
      assert ScoredFirst(ranked[0], ranked[k]);
    }
  }

  /** The contenders in the band of one target are exactly the close ones. */
  lemma BandIsClose(c: Contest, rows: Rows, sources: seq<NodeRef>, t: NodeRef, list: seq<Scored>, s: NodeRef)
    requires AreRows(c, rows) && (forall x :: x in sources <==> x in c.sources)
    requires ListsPicks(rows, c.threshold, sources, t, list)
    ensures c.Close(s, t) <==> InBand(list, c.margin, Scored(c.value(s, t), s))
  {
    forall x
      ensures c.Contends(x, t) <==> Scored(c.value(x, t), x) in list
    {
      PicksAreContenders(c, rows, x, t);
      if c.Contends(x, t) { assert x in sources; }
    }
    forall d | d in list
      ensures c.Contends(d.ref, t) && d.value == c.value(d.ref, t)
    {
      PicksAreContenders(c, rows, d.ref, t);
    }
    if c.Contends(s, t) {
      var u := ChampionExists(c, s, t);
      if c.Close(s, t) {
        var w :| c.Champion(w, t) && c.value(w, t) - c.value(s, t) <= c.margin;
      }
    }
  }

  /** `_ambiguous_edges`: source-side near-ties, then contenders near-tied for one target. */
  method AmbiguousEdges(c: Contest, rows: Rows, sources: seq<NodeRef>) returns (edges: set<(NodeRef, NodeRef)>)
    requires c.Valid() && AreRows(c, rows) && Distinct(sources)
    requires forall s :: s in sources <==> s in c.sources
    ensures forall s, t :: (s, t) in edges <==> c.Edge(s, t)
  {
    var sourceSide := SourceEdges(c, rows, sources);
    assert forall i :: 0 <= i < |sources| ==> sources[i] in sources;
    var byTarget := GroupByPick(rows, c.threshold, sources);
    var targetSide := TargetEdges(c, rows, sources, byTarget);
    edges := sourceSide + targetSide;
  }

  method TargetEdges(c: Contest, rows: Rows, sources: seq<NodeRef>, byTarget: map<NodeRef, seq<Scored>>)
    returns (edges: set<(NodeRef, NodeRef)>)
    requires AreRows(c, rows) && forall s :: s in sources <==> s in c.sources
    requires GroupsPicks(rows, c.threshold, sources, byTarget)
    ensures forall s, t :: (s, t) in edges <==> c.TargetEdge(s, t)
  {
    edges := {};
    var targets := SortRefs(byTarget.Keys);
    ghost var done: set<NodeRef> := {};
    for i := 0 to |targets|
      invariant done == set j | 0 <= j < i :: targets[j]
      invariant forall s, t :: (s, t) in edges <==> t in done && c.TargetEdge(s, t)
    {
      var t := targets[i];
      assert t in targets;
      assert byTarget[t] == PicksOf(byTarget, t);
      var close := CloseTo(c, rows, sources, t, byTarget[t]);
      edges := edges + set s | s in close :: (s, t);
      done := done + {t};
    }
    forall s, t | c.TargetEdge(s, t)
      ensures t in done
    {
      TargetIsListed(c, rows, sources, byTarget, s, t);
      assert t in targets;
    }
  }

  /** The sources with an edge of the second kind to one target. */
  method CloseTo(c: Contest, rows: Rows, ghost sources: seq<NodeRef>, t: NodeRef, list: seq<Scored>)
    returns (close: set<NodeRef>)
    requires AreRows(c, rows) && (forall x :: x in sources <==> x in c.sources)
    requires ListsPicks(rows, c.threshold, sources, t, list)
    ensures forall s :: s in close <==> c.TargetEdge(s, t)
  {
    close := CloseContenders(list, c.margin);
    forall s
      ensures s in close <==> c.TargetEdge(s, t)
    {
      TargetEdgeInBand(c, rows, sources, t, list, s);
    }
  }

  lemma TargetIsListed(c: Contest, rows: Rows, sources: seq<NodeRef>, byTarget: map<NodeRef, seq<Scored>>, s: NodeRef,
                       t: NodeRef)
    requires AreRows(c, rows) && (forall x :: x in sources <==> x in c.sources)
    requires GroupsPicks(rows, c.threshold, sources, byTarget) && c.TargetEdge(s, t)
    ensures t in byTarget
  {
    PicksAreContenders(c, rows, s, t);
    var i :| 0 <= i < |sources| && sources[i] == s;
    assert ListsPicks(rows, c.threshold, sources, t, PicksOf(byTarget, t));
  }

  lemma TargetEdgeInBand(c: Contest, rows: Rows, sources: seq<NodeRef>, t: NodeRef, list: seq<Scored>, s: NodeRef)
    requires AreRows(c, rows) && (forall x :: x in sources <==> x in c.sources)
    requires ListsPicks(rows, c.threshold, sources, t, list)
    ensures c.TargetEdge(s, t) <==>
      exists d, e :: InBand(list, c.margin, d) && InBand(list, c.margin, e) && d.ref == s && e.ref != s
  {
    forall x
      ensures c.Close(x, t) <==> InBand(list, c.margin, Scored(c.value(x, t), x))
    {
      BandIsClose(c, rows, sources, t, list, x);
    }
    forall d | d in list
      ensures d == Scored(c.value(d.ref, t), d.ref)
    {
      PicksAreContenders(c, rows, d.ref, t);
    }
  }

  // ---------------------------------------------------------------- greedy confirmation

  /** The confirmable pairs, one per source that is neither ambiguous nor aimed at an ambiguous target. */
  method CollectOffers(c: Contest, rows: Rows, sources: seq<NodeRef>, edges: set<(NodeRef, NodeRef)>)
    returns (offers: seq<Offer>)
    requires AreRows(c, rows) && Distinct(sources) && forall s :: s in sources <==> s in c.sources
    requires forall s, t :: (s, t) in edges <==> c.Edge(s, t)
    ensures Distinct(offers)
    ensures forall o :: o in offers <==> c.Confirmable(o.source, o.target) && o.value == c.value(o.source, o.target)
  {
    var ambiguousSources := set e | e in edges :: e.0;
    var ambiguousTargets := set e | e in edges :: e.1;
    offers := [];
    ghost var done: seq<NodeRef> := [];
    for i := 0 to |sources|
      invariant done == sources[..i]
      invariant Distinct(offers) && forall k :: 0 <= k < |offers| ==> offers[k].source in done
      invariant forall o :: o in offers <==> o.source in done && IsOffer(c, rows, edges, o)
    {
      var s := sources[i];
      var row := rows[s];
      assert s !in done;
      done := done + [s];
      if s in ambiguousSources || row == [] {
        assert forall o: Offer :: o.source == s ==> !IsOffer(c, rows, edges, o) by {
          assert s in ambiguousSources ==> exists e :: e in edges && e.0 == s;
        }
        continue;
      }
      var best := row[0];
      if best.value >= c.threshold && best.ref !in ambiguousTargets {
        offers := offers + [Offer(best.value, s, best.ref)];
        assert IsOffer(c, rows, edges, Offer(best.value, s, best.ref));
      } else {
        assert best.ref in ambiguousTargets ==> exists e :: e in edges && e.1 == best.ref;
      }
    }
    assert sources[..|sources|] == sources;
    forall o
      ensures o in offers <==> c.Confirmable(o.source, o.target) && o.value == c.value(o.source, o.target)
    {
      OfferIsConfirmable(c, rows, edges, o);
      if IsOffer(c, rows, edges, o) { assert o.source in c.sources; }
    }
  }

  ghost predicate IsOffer(c: Contest, rows: Rows, edges: set<(NodeRef, NodeRef)>, o: Offer)
  {
    Picks(rows, c.threshold, o.source, o.target) && o.value == rows[o.source][0].value &&
    (forall e :: e in edges ==> e.0 != o.source) && (forall e :: e in edges ==> e.1 != o.target)
  }

  lemma OfferIsConfirmable(c: Contest, rows: Rows, edges: set<(NodeRef, NodeRef)>, o: Offer)
    requires AreRows(c, rows) && forall s, t :: (s, t) in edges <==> c.Edge(s, t)
    ensures IsOffer(c, rows, edges, o) <==>
      c.Confirmable(o.source, o.target) && o.value == c.value(o.source, o.target)
    ensures IsOffer(c, rows, edges, o) ==> o.source in c.sources
  {
    PicksAreContenders(c, rows, o.source, o.target);
    assert (forall e :: e in edges ==> e.0 != o.source) <==> forall t2 :: !c.Edge(o.source, t2) by {
      forall t2 | c.Edge(o.source, t2) ensures exists e :: e in edges && e.0 == o.source {
        assert (o.source, t2) in edges;
      }
    }
    assert (forall e :: e in edges ==> e.1 != o.target) <==> forall s2 :: !c.Edge(s2, o.target) by {
      forall s2 | c.Edge(s2, o.target) ensures exists e :: e in edges && e.1 == o.target {
        assert (s2, o.target) in edges;
      }
    }
  }

  /** Walk the offers in order; an offer is accepted unless its source or target is already used. */
  method Consume(offers: seq<Offer>) returns (accepted: seq<Offer>)
    requires forall i, j :: 0 <= i < j < |offers| ==> offers[i].source != offers[j].source
    ensures Distinct(accepted)
    ensures forall i {:trigger FirstForTarget(offers, i)} :: 0 <= i < |offers| ==>
      (offers[i] in accepted <==> FirstForTarget(offers, i))
    ensures forall o :: o in accepted ==> o in offers
  {
    var matchedSources: set<NodeRef> := {};
    var takenTargets: set<NodeRef> := {};
    accepted := [];
    for i := 0 to |offers|
      invariant forall s :: s in matchedSources ==> exists j :: 0 <= j < i && offers[j].source == s
      invariant takenTargets == set j | 0 <= j < i :: offers[j].target
      invariant Distinct(accepted)
      invariant forall k :: 0 <= k < |accepted| ==> accepted[k].source in matchedSources && accepted[k] in offers
      invariant forall j {:trigger FirstForTarget(offers, j)} :: 0 <= j < i ==>
        (offers[j] in accepted <==> FirstForTarget(offers, j))
    {
      var o := offers[i];
      assert o.source !in matchedSources && o !in accepted;
      assert o.target in takenTargets <==> !FirstForTarget(offers, i);
      assert forall j :: 0 <= j < i ==> offers[j] != o;
      if o.source in matchedSources || o.target in takenTargets {
        continue;
      }
      accepted := accepted + [o];
      matchedSources := matchedSources + {o.source};
      takenTargets := takenTargets + {o.target};
    }
  }

  ghost predicate FirstForTarget(offers: seq<Offer>, i: int)
  {
    0 <= i < |offers| && forall j :: 0 <= j < i ==> offers[j].target != offers[i].target
  }

  /** In score order, the first offer for a target is its winner, whatever the tie-break. */
  lemma FirstOfferWins(c: Contest, offers: seq<Offer>, i: int)
    requires c.Valid() && 0 <= i < |offers| && Distinct(offers) && OrderedBy(OfferFirst, offers)
    requires forall o :: o in offers <==> c.Confirmable(o.source, o.target) && o.value == c.value(o.source, o.target)
    ensures FirstForTarget(offers, i) <==> c.Wins(offers[i].source, offers[i].target)
  {
    var o := offers[i];
    assert o in offers;
    if FirstForTarget(offers, i) {
      forall s2 | c.Confirmable(s2, o.target)
        ensures c.value(s2, o.target) <= o.value
      {
        assert Offer(c.value(s2, o.target), s2, o.target) in offers;
        var k :| 0 <= k < |offers| && offers[k] == Offer(c.value(s2, o.target), s2, o.target);
        if i < k { assert OfferFirst(offers[i], offers[k]); }
      }
    }
    if c.Wins(o.source, o.target) {
      forall j | 0 <= j < i
        ensures offers[j].target != o.target
      {
        assert OfferFirst(offers[j], offers[i]) && offers[j] in offers;
        if offers[j].target == o.target {
          assert c.Wins(offers[j].source, o.target);
          WinnersAreOneToOne(c, offers[j].source, o.target, o.source, o.target);
        }
      }
    }
  }

  /** Greedy confirmation yields exactly the winners. */
  method ConfirmOffers(c: Contest, offers: seq<Offer>) returns (winners: seq<Offer>)
    requires c.Valid() && Distinct(offers)
    requires forall o :: o in offers <==> c.Confirmable(o.source, o.target) && o.value == c.value(o.source, o.target)
    ensures Distinct(winners)
    ensures forall o :: o in winners <==> c.Wins(o.source, o.target) && o.value == c.value(o.source, o.target)
  {
    OfferOrder();
    var ranked := Sort(OfferFirst, offers);
    forall i, j | 0 <= i < j < |ranked|
      ensures ranked[i].source != ranked[j].source
    {
      assert ranked[i] in offers && ranked[j] in offers;
      if ranked[i].source == ranked[j].source {
        PickUnique(c, ranked[i].source, ranked[i].target, ranked[j].target);
      }
    }
    winners := Consume(ranked);
    forall o
      ensures o in winners <==> c.Wins(o.source, o.target) && o.value == c.value(o.source, o.target)
    {
      if o in winners {
        var i :| 0 <= i < |ranked| && ranked[i] == o;
        FirstOfferWins(c, ranked, i);
      }
      if c.Wins(o.source, o.target) && o.value == c.value(o.source, o.target) {
        assert o in ranked;
        var i :| 0 <= i < |ranked| && ranked[i] == o;
        FirstOfferWins(c, ranked, i);
      }
    }
  }
}
