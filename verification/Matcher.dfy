/** The node matcher: authoritative identifiers first, then the similarity contest over the rest. */
module Matcher {
  import opened Options
  import opened Ordering
  import opened Profiles
  import opened Evidence
  import opened Scoring
  import opened Matches
  import opened Contest
  import opened Similarity

  datatype MatchInput = MatchInput(ev: EvidenceIndex, profile: MatchingProfile)
  {
    predicate Clash(s: NodeRef, t: NodeRef)
    {
      s in ev.source && t in ev.target &&
      EvaluateConstraints(ev.source[s], ev.target[t], profile).hard != []
    }

    function PairScore(s: NodeRef, t: NodeRef): FeatureScore
    {
      if s in ev.source && t in ev.target then ScoreOf(ev.source[s], ev.target[t], profile)
      else FeatureScore(0.0, [])
    }

    function PairViolations(s: NodeRef, t: NodeRef): Violations
    {
      if s in ev.source && t in ev.target then EvaluateConstraints(ev.source[s], ev.target[t], profile)
      else Violations([], [])
    }

    /** Only the identifier phase records violations; the similarity phase leaves the fields empty. */
    ghost function RecordedViolations(s: NodeRef, t: NodeRef): Violations
    {
      if AuthPair(s, t) then PairViolations(s, t) else Violations([], [])
    }

    /** `s` and `t` carry the same usable persistent id and ids are authoritative. */
    ghost predicate AuthPair(s: NodeRef, t: NodeRef)
    {
      PersistentId in profile.authoritative &&
      Holder(ev.source, ev.duplicateSourceIds, s) && Holder(ev.target, ev.duplicateTargetIds, t) &&
      ev.source[s].persistentId == ev.target[t].persistentId
    }

    ghost predicate AuthConfirmed(s: NodeRef, t: NodeRef)
    {
      AuthPair(s, t) && !Clash(s, t)
    }

    ghost function FreeSources(): set<NodeRef>
    {
      set s | s in ev.source && forall t :: !AuthConfirmed(s, t)
    }

    ghost function FreeTargets(): set<NodeRef>
    {
      set t | t in ev.target && forall s :: !AuthConfirmed(s, t)
    }

    function ContestOver(sources: set<NodeRef>, targets: set<NodeRef>): Contest
    {
      Contest(sources, targets, (s, t) => !Clash(s, t), (s, t) => PairScore(s, t).value,
              profile.probableThreshold, profile.matchThreshold, profile.ambiguityMargin)
    }

    ghost function Phase2(): Contest
    {
      ContestOver(FreeSources(), FreeTargets())
    }

    /** The state the graph gives a pair, if it lists the pair at all. */
    ghost function Verdict(s: NodeRef, t: NodeRef): Option<MatchState>
    {
      if AuthConfirmed(s, t) then Some(Confirmed)
      else if AuthPair(s, t) then Some(Rejected)
      else if Phase2().Edge(s, t) then Some(Ambiguous)
      else if Phase2().Wins(s, t) then Some(Confirmed)
      else None
    }

    /** Confidence is the score, except that an authoritative identifier is certain. */
    ghost function ConfidenceOf(s: NodeRef, t: NodeRef): real
    {
      if AuthConfirmed(s, t) then 1.0 else PairScore(s, t).value
    }

    /** Competing edges that share an endpoint with an ambiguous edge, in order, once each. */
    ghost predicate ListsAlternatives(s: NodeRef, t: NodeRef, ids: seq<MatchId>)
    {
      (forall id :: id in ids <==>
        Phase2().Edge(id.source, id.target) && id != MatchId(s, t) && (id.source == s || id.target == t)) &&
      forall i, j {:trigger PairBelow(ids[i], ids[j])} :: 0 <= i < j < |ids| ==> PairBelow(ids[i], ids[j])
    }

    ghost predicate Describes(c: MatchCandidate)
    {
      Verdict(c.source, c.target) == Some(c.state) &&
      c.score == PairScore(c.source, c.target) &&
      c.confidence == ConfidenceOf(c.source, c.target) &&
      c.violations == RecordedViolations(c.source, c.target) &&
      if c.state == Ambiguous then ListsAlternatives(c.source, c.target, c.alternatives) else c.alternatives == []
    }

    /** Some weighted feature applies to the pair and agrees. */
    ghost predicate Supported(s: NodeRef, t: NodeRef)
    {
      s in ev.source && t in ev.target &&
      exists f :: f in FeaturesOf(ev.source[s], ev.target[t]) && Counts(profile, f) && f.matched
    }

    /** The pair is confirmed or kept as ambiguous without anything that speaks for it. */
    ghost predicate Baseless(s: NodeRef, t: NodeRef)
    {
      (Verdict(s, t) == Some(Confirmed) || Verdict(s, t) == Some(Ambiguous)) && !Supported(s, t)
    }

    /** The constructor of some candidate rejects its record. */
    ghost predicate Raises()
    {
      exists s, t :: Baseless(s, t)
    }

    ghost predicate Accepts(c: MatchCandidate)
    {
      Describes(c) && c.WellFormed()
    }

    /** The whole contract of `match`: every verdict once, in order, correctly described. */
    ghost predicate IsGraph(g: MatchGraph)
    {
      (forall c :: c in g.candidates ==> Describes(c)) &&
      (forall s, t :: Verdict(s, t).Some? ==> exists c :: c in g.candidates && c.source == s && c.target == t) &&
      forall i, j {:trigger PairBelow(g.candidates[i].Id(), g.candidates[j].Id())} ::
        0 <= i < j < |g.candidates| ==> PairBelow(g.candidates[i].Id(), g.candidates[j].Id())
    }
  }

  /** `n` is the node that the id index keeps for its persistent id. */
  ghost predicate Holder(side: Side, duplicates: set<string>, n: NodeRef)
  {
    n in side && side[n].persistentId.Some? && side[n].persistentId.value !in duplicates &&
    forall m {:trigger Below(m, n)} ::
      m in side && m != n && side[m].persistentId == side[n].persistentId ==> Below(m, n)
  }

  predicate PairBelow(a: MatchId, b: MatchId)
  {
    Below(a.source, b.source) || (a.source == b.source && Below(a.target, b.target))
  }

  predicate PairNotAbove(a: MatchId, b: MatchId)
  {
    a == b || PairBelow(a, b)
  }

  predicate CandidateNotAbove(a: MatchCandidate, b: MatchCandidate)
  {
    PairNotAbove(a.Id(), b.Id())
  }

  lemma PairOrder(a: MatchId, b: MatchId, c: MatchId)
    ensures PairNotAbove(a, b) || PairNotAbove(b, a)
    ensures PairBelow(a, b) ==> a != b && !PairBelow(b, a)
    ensures PairNotAbove(a, b) && PairNotAbove(b, c) ==> PairNotAbove(a, c)
  {
    BelowTotal(a.source, b.source);
    BelowTotal(a.target, b.target);
    if Below(a.source, b.source) && Below(b.source, c.source) { BelowTransitive(a.source, b.source, c.source); }
    if Below(a.target, b.target) && Below(b.target, c.target) { BelowTransitive(a.target, b.target, c.target); }
  }

  lemma PairTotalPreorder()
    ensures TotalPreorder(PairNotAbove) && TotalPreorder(CandidateNotAbove)
  {
    forall a, b, c
      ensures PairNotAbove(a, b) || PairNotAbove(b, a)
      ensures PairNotAbove(a, b) && PairNotAbove(b, c) ==> PairNotAbove(a, c)
    {
      PairOrder(a, b, c);
    }
  }

  // ---------------------------------------------------------------- facts about verdicts

  lemma HolderUnique(side: Side, duplicates: set<string>, n: NodeRef, m: NodeRef)
    requires Holder(side, duplicates, n) && Holder(side, duplicates, m)
    requires side[n].persistentId == side[m].persistentId
    ensures n == m
  {
    BelowTotal(n, m);
  }

  lemma AuthPairUnique(x: MatchInput, s: NodeRef, t: NodeRef, s2: NodeRef, t2: NodeRef)
    requires x.AuthPair(s, t) && x.AuthPair(s2, t2)
    ensures s == s2 <==> t == t2
  {
    if s == s2 { HolderUnique(x.ev.target, x.ev.duplicateTargetIds, t, t2); }
    if t == t2 { HolderUnique(x.ev.source, x.ev.duplicateSourceIds, s, s2); }
  }

  /** Phase 2 only ever speaks of free, type-compatible nodes. */
  lemma Phase2IsFree(x: MatchInput, s: NodeRef, t: NodeRef)
    requires x.Phase2().Edge(s, t) || x.Phase2().Wins(s, t)
    ensures s in x.FreeSources() && t in x.FreeTargets() && !x.AuthPair(s, t)
    ensures x.Phase2().Plausible(s, t)
  {
    assert x.Phase2().Plausible(s, t);
    assert x.Phase2().admissible(s, t) && !x.AuthConfirmed(s, t);
  }

  lemma EdgesAndWinsAreApart(x: MatchInput, s: NodeRef, t: NodeRef, s2: NodeRef, t2: NodeRef)
    requires x.Phase2().Wins(s, t) && x.Phase2().Edge(s2, t2)
    ensures s != s2 && t != t2
  {
  }

  /** Both phases together confirm one-to-one. */
  lemma ConfirmedUnique(x: MatchInput, s: NodeRef, t: NodeRef, s2: NodeRef, t2: NodeRef)
    requires x.profile.Valid()
    requires x.Verdict(s, t) == Some(Confirmed) && x.Verdict(s2, t2) == Some(Confirmed)
    ensures s == s2 <==> t == t2
  {
    if x.AuthConfirmed(s, t) && x.AuthConfirmed(s2, t2) {
      AuthPairUnique(x, s, t, s2, t2);
    } else if !x.AuthConfirmed(s, t) && !x.AuthConfirmed(s2, t2) {
      WinnersAreOneToOne(x.Phase2(), s, t, s2, t2);
    } else if x.AuthConfirmed(s, t) {
      Phase2IsFree(x, s2, t2);
    } else {
      Phase2IsFree(x, s, t);
    }
  }

  /** A node on an ambiguous edge has no confirmed match. */
  lemma AmbiguousIsUnconfirmed(x: MatchInput, s: NodeRef, t: NodeRef, s2: NodeRef, t2: NodeRef)
    requires x.Verdict(s, t) == Some(Ambiguous) && x.Verdict(s2, t2) == Some(Confirmed)
    ensures s != s2 && t != t2
  {
    Phase2IsFree(x, s, t);
    if !x.AuthConfirmed(s2, t2) {
      EdgesAndWinsAreApart(x, s2, t2, s, t);
    }
  }

  // ---------------------------------------------------------------- the contracts of the graph

  lemma CandidateAt(x: MatchInput, g: MatchGraph, s: NodeRef, t: NodeRef)
    requires x.IsGraph(g)
    ensures g.Pairs(s, t) <==> x.Verdict(s, t) == Some(Confirmed)
    ensures g.AmbiguousEdge(s, t) <==> x.Verdict(s, t) == Some(Ambiguous)
  {
  }

  /** No pair is listed twice. */
  lemma PairsListedOnce(x: MatchInput, g: MatchGraph, i: nat, j: nat)
    requires x.IsGraph(g) && i < j < |g.candidates|
    ensures g.candidates[i].Id() != g.candidates[j].Id()
  {
    PairOrder(g.candidates[i].Id(), g.candidates[j].Id(), g.candidates[j].Id());
    assert PairBelow(g.candidates[i].Id(), g.candidates[j].Id());
  }

  lemma GraphIsOneToOne(x: MatchInput, g: MatchGraph)
    requires x.profile.Valid() && x.IsGraph(g)
    ensures g.OneToOne()
  {
    forall i, j | 0 <= i < j < |g.candidates|
      ensures Compatible(g.candidates[i], g.candidates[j])
    {
      var a, b := g.candidates[i], g.candidates[j];
      assert a in g.candidates && b in g.candidates;
      PairsListedOnce(x, g, i, j);
      if a.state == Confirmed && b.state == Confirmed {
        ConfirmedUnique(x, a.source, a.target, b.source, b.target);
      }
    }
  }

  /** An ambiguous edge always competes with another one. */
  lemma EdgeHasAlternative(c: Contest, s: NodeRef, t: NodeRef) returns (s2: NodeRef, t2: NodeRef)
    requires c.Edge(s, t)
    ensures c.Edge(s2, t2) && (s2, t2) != (s, t) && (s2 == s || t2 == t)
  {
    if c.SourceEdge(s, t) {
      s2 := s;
      t2 :| t2 != t && c.Near(s, t2);
      assert c.SourceEdge(s, t2);
    } else {
      t2 := t;
      s2 :| s2 != s && c.Close(s2, t);
      assert c.TargetEdge(s2, t);
    }
  }

  /**
   * Every candidate satisfies the candidate contract exactly when each pair that is confirmed or kept
   * as ambiguous, by identifier or by similarity, has an agreeing feature of positive weight.
   */
  lemma CandidatesAreWellFormedIff(x: MatchInput, g: MatchGraph)
    requires x.profile.Valid() && x.IsGraph(g)
    ensures (forall c :: c in g.candidates ==> c.WellFormed()) <==> forall s, t :: !x.Baseless(s, t)
  {
    forall c | c in g.candidates
      ensures c.WellFormed() <==> !x.Baseless(c.source, c.target)
    {
      CandidateWellFormed(x, c);
    }
    forall s, t | x.Baseless(s, t)
      ensures exists c :: c in g.candidates && c.source == s && c.target == t
    {
      assert x.Verdict(s, t).Some?;
    }
  }

  lemma CandidateWellFormed(x: MatchInput, c: MatchCandidate)
    requires x.profile.Valid() && x.Describes(c)
    ensures c.WellFormed() <==> !x.Baseless(c.source, c.target)
  {
    var s, t := c.source, c.target;
    if x.Phase2().Edge(s, t) || x.Phase2().Wins(s, t) {
      Phase2IsFree(x, s, t);
    }
    assert s in x.ev.source && t in x.ev.target;
    ScoreIsSupportedFraction(x.ev.source[s], x.ev.target[t], x.profile);
    if c.state == Ambiguous {
      var s2, t2 := EdgeHasAlternative(x.Phase2(), s, t);
      assert MatchId(s2, t2) in c.alternatives;
    }
  }

  /** With a positive probable threshold only the identifier phase can lack evidence. */
  lemma BaselessIsIdentified(x: MatchInput, s: NodeRef, t: NodeRef)
    requires x.profile.Valid() && x.profile.probableThreshold > 0.0
    ensures x.Baseless(s, t) <==> x.AuthConfirmed(s, t) && !x.Supported(s, t)
  {
    if x.Baseless(s, t) && !x.AuthConfirmed(s, t) {
      Phase2IsFree(x, s, t);
      ScoreIsSupportedFraction(x.ev.source[s], x.ev.target[t], x.profile);
    }
  }

  lemma UnweightedScoresNothing(x: MatchInput, s: NodeRef, t: NodeRef)
    requires x.profile.featureWeights == []
    ensures x.PairScore(s, t).value == 0.0 && !x.Supported(s, t)
  {
    assert forall f :: !Counts(x.profile, f);
    if s in x.ev.source && t in x.ev.target { ScoreIsSupportedFraction(x.ev.source[s], x.ev.target[t], x.profile); }
  }

  /**
   * The profile without weights, which is the default, is accepted by every check. The matcher raises
   * under it exactly when an identifier matches, or when a zero threshold admits any similarity pair.
   */
  lemma UnweightedRaisesIff(x: MatchInput)
    requires x.profile.Valid() && x.profile.featureWeights == []
    ensures x.Raises() <==>
      (exists s, t :: x.AuthConfirmed(s, t)) ||
      (x.profile.matchThreshold == 0.0 && exists s, t :: x.Phase2().Plausible(s, t))
  {
    if s, t :| x.AuthConfirmed(s, t) {
      UnweightedScoresNothing(x, s, t);
      assert x.Baseless(s, t);
    }
    if s, t :| x.Phase2().Plausible(s, t) && x.profile.matchThreshold == 0.0 {
      ZeroThresholdAsserts(x, s, t);
    }
    if s, t :| x.Baseless(s, t) && !x.AuthConfirmed(s, t) {
      UnweightedNeedsZero(x, s, t);
    }
  }

  lemma UnweightedNeedsZero(x: MatchInput, s: NodeRef, t: NodeRef)
    requires x.profile.Valid() && x.profile.featureWeights == [] && x.Baseless(s, t) && !x.AuthConfirmed(s, t)
    ensures x.Phase2().Plausible(s, t) && x.profile.matchThreshold == 0.0
  {
    Phase2IsFree(x, s, t);
    forall b
      ensures x.Phase2().value(s, b) == 0.0
    {
      UnweightedScoresNothing(x, s, b);
    }
  }

  lemma ZeroThresholdAsserts(x: MatchInput, s: NodeRef, t: NodeRef)
    requires x.profile.Valid() && x.profile.featureWeights == [] && x.profile.matchThreshold == 0.0
    requires x.Phase2().Plausible(s, t)
    ensures x.Raises()
  {
    forall a, b
      ensures x.Phase2().value(a, b) == 0.0
    {
      UnweightedScoresNothing(x, a, b);
    }
    var s2, t2 := LevelContestDecides(x.Phase2(), s, t);
    Phase2IsFree(x, s2, t2);
    UnweightedScoresNothing(x, s2, t2);
    assert x.Baseless(s2, t2);
  }

  /** A soft type mismatch is on record for identifier matches only; similarity matches omit it. */
  lemma SimilarityOmitsSoftViolations(x: MatchInput, g: MatchGraph, c: MatchCandidate)
    requires x.IsGraph(g) && c in g.candidates && !x.AuthPair(c.source, c.target)
    requires !x.profile.hardNodeType
    ensures c.violations.soft == [] && c.source in x.ev.source && c.target in x.ev.target
    ensures x.PairViolations(c.source, c.target).soft != [] <==>
      x.ev.source[c.source].nodeType != x.ev.target[c.target].nodeType
  {
    assert x.Describes(c);
    Phase2IsFree(x, c.source, c.target);
  }

  /** A positive identifier weight is enough support for every authoritative pair. */
  lemma IdentifierWeightSupports(x: MatchInput, s: NodeRef, t: NodeRef)
    requires x.profile.WeightFor(PersistentId) > 0.0 && x.AuthPair(s, t)
    ensures x.Supported(s, t)
  {
    var a, b := x.ev.source[s], x.ev.target[t];
    assert PersistentIdFeature(a, b) in FeaturesOf(a, b);
    assert Counts(x.profile, PersistentIdFeature(a, b)) && PersistentIdFeature(a, b).matched;
  }

  /** So with positive identifier weight and probable threshold the matcher never raises. */
  lemma WeightedMatcherReturns(x: MatchInput)
    requires x.profile.Valid() && x.profile.WeightFor(PersistentId) > 0.0 && x.profile.probableThreshold > 0.0
    ensures !x.Raises()
  {
    forall s, t
      ensures !x.Baseless(s, t)
    {
      BaselessIsIdentified(x, s, t);
      if x.AuthConfirmed(s, t) { IdentifierWeightSupports(x, s, t); }
    }
  }

  // ---------------------------------------------------------------- phase 1

  /** `_unique_id_index`: in reference order, so a later reference replaces an earlier one. */
  method UniqueIdIndex(side: Side, duplicates: set<string>) returns (index: map<string, NodeRef>)
    ensures forall id :: id in index ==> Holder(side, duplicates, index[id]) && side[index[id]].persistentId == Some(id)
    ensures forall n :: Holder(side, duplicates, n) ==>
      side[n].persistentId.value in index && index[side[n].persistentId.value] == n
  {
    index := map[];
    var refs := SortRefs(side.Keys);
    for i := 0 to |refs|
      invariant forall id :: id in index ==> id !in duplicates && HoldsSoFar(side, refs, i, id, index[id])
      invariant forall j ::
        0 <= j < i && Usable(side, duplicates, refs[j]) ==> side[refs[j]].persistentId.value in index
    {
      var n := refs[i];
      assert n in refs;
      var id := side[n].persistentId;
      forall j | 0 <= j < i
        ensures Below(refs[j], n)
      {
      }
      if id == None || id.value in duplicates {
        continue;
      }
      index := index[id.value := n];
    }
    forall id | id in index
      ensures Holder(side, duplicates, index[id]) && side[index[id]].persistentId == Some(id)
    {
      forall m | m in side && m != index[id] && side[m].persistentId == Some(id)
        ensures Below(m, index[id])
      {
        assert m in refs;
      }
    }
    forall n | Holder(side, duplicates, n)
      ensures side[n].persistentId.value in index && index[side[n].persistentId.value] == n
    {
      assert n in refs;
      var j :| 0 <= j < |refs| && refs[j] == n;
      assert Usable(side, duplicates, refs[j]);
      HolderUnique(side, duplicates, n, index[side[n].persistentId.value]);
    }
  }

  predicate Usable(side: Side, duplicates: set<string>, n: NodeRef)
  {
    n in side && side[n].persistentId.Some? && side[n].persistentId.value !in duplicates
  }

  ghost predicate HoldsSoFar(side: Side, refs: seq<NodeRef>, i: nat, id: string, n: NodeRef)
    requires i <= |refs|
  {
    n in side && side[n].persistentId == Some(id) &&
    forall j ::
      0 <= j < i && refs[j] in side && refs[j] != n && side[refs[j]].persistentId == Some(id) ==> Below(refs[j], n)
  }

  /** Candidates of one phase: each described correctly and accepted by its constructor, no pair twice. */
  ghost predicate AreCandidates(x: MatchInput, cs: seq<MatchCandidate>)
  {
    (forall i {:trigger x.Accepts(cs[i])} :: 0 <= i < |cs| ==> x.Accepts(cs[i])) && IdsApart(cs)
  }

  /** Any property of candidates; the loops below carry `Accepts` without looking inside it. */
  type Judge = MatchCandidate -> bool

  ghost predicate AllPass(judge: Judge, cs: seq<MatchCandidate>)
  {
    forall i {:trigger judge(cs[i])} :: 0 <= i < |cs| ==> judge(cs[i])
  }

  lemma PassIsAccepted(x: MatchInput, judge: Judge, cs: seq<MatchCandidate>)
    requires (forall c {:trigger judge(c)} :: judge(c) <==> x.Accepts(c)) && AllPass(judge, cs) && IdsApart(cs)
    ensures AreCandidates(x, cs)
  {
    forall i | 0 <= i < |cs|
      ensures x.Accepts(cs[i])
    {
      assert judge(cs[i]);
    }
  }

  ghost predicate IdsApart(cs: seq<MatchCandidate>)
  {
    forall i, j :: 0 <= i < j < |cs| ==> cs[i].Id() != cs[j].Id()
  }

  ghost predicate Lists(cs: seq<MatchCandidate>, s: NodeRef, t: NodeRef)
  {
    exists i :: 0 <= i < |cs| && cs[i].source == s && cs[i].target == t
  }

  /** The candidate constructor: it raises on a record that violates the contract, naming the pair. */
  method Construct(ghost x: MatchInput, c: MatchCandidate) returns (r: Result<MatchCandidate, MatchId>)
    requires x.profile.Valid() && x.Describes(c)
    ensures r.Ok? ==> r.value == c && x.Accepts(c)
    ensures r.Err? ==> r.error == c.Id() && x.Baseless(c.source, c.target)
  {
    CandidateWellFormed(x, c);
    r := if c.WellFormed() then Ok(c) else Err(c.Id());
  }

  /** The record for one pair of equal, unique ids. */
  method AuthoritativeCandidate(x: MatchInput, s: NodeRef, t: NodeRef) returns (r: Result<MatchCandidate, MatchId>)
    requires x.profile.Valid() && PersistentId in x.profile.authoritative && x.AuthPair(s, t)
    ensures r.Ok? ==> r.value.Id() == MatchId(s, t) && x.Accepts(r.value)
    ensures r.Err? ==> x.Baseless(r.error.source, r.error.target)
  {
    var score := ScorePair(x.ev.source[s], x.ev.target[t], x.profile);
    var violations := EvaluateConstraints(x.ev.source[s], x.ev.target[t], x.profile);
    if violations.hard != [] {
      r := Construct(x, MatchCandidate(s, t, Rejected, score, score.value, violations, []));
    } else {
      r := Construct(x, MatchCandidate(s, t, Confirmed, score, 1.0, violations, []));
    }
  }

  method PairCandidates(x: MatchInput, pairs: seq<MatchId>, ghost judge: Judge)
    returns (r: Result<seq<MatchCandidate>, MatchId>)
    requires x.profile.Valid() && PersistentId in x.profile.authoritative && Distinct(pairs)
    requires forall i :: 0 <= i < |pairs| ==> x.AuthPair(pairs[i].source, pairs[i].target)
    requires forall c {:trigger judge(c)} :: judge(c) <==> x.Accepts(c)
    ensures r.Ok? ==> AllPass(judge, r.value) && IdsApart(r.value)
    ensures r.Ok? ==> |r.value| == |pairs| && forall j :: 0 <= j < |pairs| ==> r.value[j].Id() == pairs[j]
    ensures r.Err? ==> x.Baseless(r.error.source, r.error.target)
  {
    var results: seq<MatchCandidate> := [];
    for i := 0 to |pairs|
      invariant |results| == i && forall j :: 0 <= j < i ==> results[j].Id() == pairs[j]
      invariant AllPass(judge, results) && IdsApart(results)
    {
      var candidate := AuthoritativeCandidate(x, pairs[i].source, pairs[i].target);
      if candidate.Err? {
        return Err(candidate.error);
      }
      assert candidate.value.Id() == pairs[i];
      results := AppendCandidate(judge, results, candidate.value);
    }
    r := Ok(results);
  }

  method AuthoritativeMatches(x: MatchInput) returns (r: Result<seq<MatchCandidate>, MatchId>)
    requires x.profile.Valid() && PersistentId in x.profile.authoritative
    ensures r.Ok? ==> AreCandidates(x, r.value)
    ensures r.Ok? ==> forall i :: 0 <= i < |r.value| ==> x.AuthPair(r.value[i].source, r.value[i].target)
    ensures r.Ok? ==> forall s, t :: x.AuthPair(s, t) ==> Lists(r.value, s, t)
    ensures r.Err? ==> x.Baseless(r.error.source, r.error.target)
  {
    var sourceById := UniqueIdIndex(x.ev.source, x.ev.duplicateSourceIds);
    var targetById := UniqueIdIndex(x.ev.target, x.ev.duplicateTargetIds);
    var ids := SortRefs(sourceById.Keys * targetById.Keys);
    assert forall i :: 0 <= i < |ids| ==> ids[i] in ids;
    var pairs := seq(|ids|, i requires 0 <= i < |ids| => MatchId(sourceById[ids[i]], targetById[ids[i]]));
    forall i, j | 0 <= i < j < |pairs|
      ensures pairs[i] != pairs[j]
    {
      assert x.ev.source[pairs[i].source].persistentId == Some(ids[i]);
      assert x.ev.source[pairs[j].source].persistentId == Some(ids[j]);
    }
    ghost var judge := (c: MatchCandidate) => x.Accepts(c);
    r := PairCandidates(x, pairs, judge);
    if r.Err? {
      return;
    }
    var results := r.value;
    PassIsAccepted(x, judge, results);
    forall i | 0 <= i < |results|
      ensures x.AuthPair(results[i].source, results[i].target)
    {
      assert results[i].Id() == pairs[i];
    }
    forall s, t | x.AuthPair(s, t)
      ensures Lists(results, s, t)
    {
      var id := x.ev.source[s].persistentId.value;
      assert id in ids;
      var i :| 0 <= i < |ids| && ids[i] == id;
      assert results[i].Id() == pairs[i] == MatchId(s, t);
    }
  }

  /** `sorted(edges)`. */
  method SortEdges(edges: set<(NodeRef, NodeRef)>) returns (r: seq<MatchId>)
    ensures forall id :: id in r <==> (id.source, id.target) in edges
    ensures Distinct(r)
    ensures forall i, j {:trigger PairBelow(r[i], r[j])} :: 0 <= i < j < |r| ==> PairBelow(r[i], r[j])
  {
    var listed: seq<MatchId> := [];
    var rest := edges;
    while rest != {}
      invariant rest <= edges && Distinct(listed)
      invariant forall id :: id in listed <==> (id.source, id.target) in edges - rest
    {
      var e :| e in rest;
      rest := rest - {e};
      listed := listed + [MatchId(e.0, e.1)];
    }
    PairTotalPreorder();
    r := Sort(PairNotAbove, listed);
    forall i, j | 0 <= i < j < |r|
      ensures PairBelow(r[i], r[j])
    {
      assert PairNotAbove(r[i], r[j]);
    }
  }

  /** The edges competing with `self`, in order. */
  method AlternativesOf(edges: seq<MatchId>, self: MatchId) returns (r: seq<MatchId>)
    requires forall i, j {:trigger PairBelow(edges[i], edges[j])} ::
      0 <= i < j < |edges| ==> PairBelow(edges[i], edges[j])
    ensures forall id :: id in r <==>
      id in edges && id != self && (id.source == self.source || id.target == self.target)
    ensures forall i, j {:trigger PairBelow(r[i], r[j])} :: 0 <= i < j < |r| ==> PairBelow(r[i], r[j])
  {
    r := [];
    ghost var at: seq<int> := [];
    for k := 0 to |edges|
      invariant |at| == |r| && forall i :: 0 <= i < |r| ==> 0 <= at[i] < k && r[i] == edges[at[i]]
      invariant forall i, j :: 0 <= i < j < |r| ==> at[i] < at[j]
      invariant forall i :: 0 <= i < |r| ==> r[i] != self && (r[i].source == self.source || r[i].target == self.target)
      invariant forall i | 0 <= i < k && edges[i] != self ::
        edges[i].source == self.source || edges[i].target == self.target ==> edges[i] in r
    {
      if edges[k] != self && (edges[k].source == self.source || edges[k].target == self.target) {
        r := r + [edges[k]];
        at := at + [k];
      }
    }
    forall i, j | 0 <= i < j < |r|
      ensures PairBelow(r[i], r[j])
    {
      assert PairBelow(edges[at[i]], edges[at[j]]);
    }
  }

  method AppendCandidate(ghost judge: Judge, cs: seq<MatchCandidate>, c: MatchCandidate)
    returns (r: seq<MatchCandidate>)
    requires AllPass(judge, cs) && IdsApart(cs) && judge(c) && forall i :: 0 <= i < |cs| ==> cs[i].Id() != c.Id()
    ensures AllPass(judge, r) && IdsApart(r) && r == cs + [c]
  {
    r := cs + [c];
  }

  /** All ambiguous edges, in pair order. */
  ghost predicate ListsEdges(x: MatchInput, sorted: seq<MatchId>)
  {
    InPairOrder(sorted) && forall id {:trigger id in sorted} :: id in sorted <==> x.Phase2().Edge(id.source, id.target)
  }

  /** The record for the i-th ambiguous edge. */
  method AmbiguousCandidate(x: MatchInput, sorted: seq<MatchId>, i: nat) returns (r: Result<MatchCandidate, MatchId>)
    requires x.profile.Valid() && ListsEdges(x, sorted) && i < |sorted|
    ensures r.Ok? ==> r.value.Id() == sorted[i] && x.Accepts(r.value)
    ensures r.Err? ==> x.Baseless(r.error.source, r.error.target)
  {
    var s, t := sorted[i].source, sorted[i].target;
    assert sorted[i] in sorted;
    Phase2IsFree(x, s, t);
    var alternatives := AlternativesOf(sorted, sorted[i]);
    var score := ScorePair(x.ev.source[s], x.ev.target[t], x.profile);
    assert x.ListsAlternatives(s, t, alternatives);
    r := Construct(x, MatchCandidate(s, t, Ambiguous, score, score.value, Violations([], []), alternatives));
  }

  ghost predicate InPairOrder(ids: seq<MatchId>)
  {
    forall i, j {:trigger PairBelow(ids[i], ids[j])} :: 0 <= i < j < |ids| ==> PairBelow(ids[i], ids[j])
  }

  method EdgeCandidates(x: MatchInput, sorted: seq<MatchId>, ghost judge: Judge)
    returns (r: Result<seq<MatchCandidate>, MatchId>)
    requires x.profile.Valid() && ListsEdges(x, sorted) && Distinct(sorted)
    requires forall c {:trigger judge(c)} :: judge(c) <==> x.Accepts(c)
    ensures r.Ok? ==> AllPass(judge, r.value) && IdsApart(r.value)
    ensures r.Ok? ==> |r.value| == |sorted| && forall j :: 0 <= j < |sorted| ==> r.value[j].Id() == sorted[j]
    ensures r.Err? ==> x.Baseless(r.error.source, r.error.target)
  {
    var results: seq<MatchCandidate> := [];
    for i := 0 to |sorted|
      invariant |results| == i && forall j :: 0 <= j < i ==> results[j].Id() == sorted[j]
      invariant AllPass(judge, results) && IdsApart(results)
    {
      var candidate := AmbiguousCandidate(x, sorted, i);
      if candidate.Err? {
        return Err(candidate.error);
      }
      results := AppendCandidate(judge, results, candidate.value);
    }
    r := Ok(results);
  }

  lemma EdgesListed(edges: set<(NodeRef, NodeRef)>, sorted: seq<MatchId>, results: seq<MatchCandidate>)
    requires forall id :: id in sorted <==> (id.source, id.target) in edges
    requires |results| == |sorted| && forall j :: 0 <= j < |sorted| ==> results[j].Id() == sorted[j]
    ensures forall i :: 0 <= i < |results| ==> (results[i].source, results[i].target) in edges
    ensures forall s, t :: (s, t) in edges ==> Lists(results, s, t)
  {
    forall i | 0 <= i < |results|
      ensures (results[i].source, results[i].target) in edges
    {
      assert sorted[i] in sorted;
    }
    forall s, t | (s, t) in edges
      ensures Lists(results, s, t)
    {
      assert MatchId(s, t) in sorted;
      var i :| 0 <= i < |sorted| && sorted[i] == MatchId(s, t);
      assert results[i].Id() == sorted[i];
    }
  }

  method AmbiguousCandidates(x: MatchInput, edges: set<(NodeRef, NodeRef)>)
    returns (r: Result<seq<MatchCandidate>, MatchId>)
    requires x.profile.Valid() && forall s, t :: (s, t) in edges <==> x.Phase2().Edge(s, t)
    ensures r.Ok? ==> AreCandidates(x, r.value)
    ensures r.Ok? ==> forall i :: 0 <= i < |r.value| ==> (r.value[i].source, r.value[i].target) in edges
    ensures r.Ok? ==> forall s, t :: (s, t) in edges ==> Lists(r.value, s, t)
    ensures r.Err? ==> x.Baseless(r.error.source, r.error.target)
  {
    var sorted := SortEdges(edges);
    ghost var judge := (c: MatchCandidate) => x.Accepts(c);
    r := EdgeCandidates(x, sorted, judge);
    if r.Ok? {
      PassIsAccepted(x, judge, r.value);
      EdgesListed(edges, sorted, r.value);
    }
  }

  /** The record for one winner of the similarity phase. */
  method WinnerCandidate(x: MatchInput, o: Offer) returns (r: Result<MatchCandidate, MatchId>)
    requires x.profile.Valid() && x.Phase2().Wins(o.source, o.target)
    ensures r.Ok? ==> r.value.Id() == MatchId(o.source, o.target) && x.Accepts(r.value)
    ensures r.Err? ==> x.Baseless(r.error.source, r.error.target)
  {
    Phase2IsFree(x, o.source, o.target);
    WinHasNoEdge(x, o.source, o.target);
    var score := ScorePair(x.ev.source[o.source], x.ev.target[o.target], x.profile);
    r := Construct(x, MatchCandidate(o.source, o.target, Confirmed, score, score.value, Violations([], []), []));
  }

  method OfferCandidates(x: MatchInput, winners: seq<Offer>, ghost judge: Judge)
    returns (r: Result<seq<MatchCandidate>, MatchId>)
    requires x.profile.Valid()
    requires forall i :: 0 <= i < |winners| ==> x.Phase2().Wins(winners[i].source, winners[i].target)
    requires forall i, j :: 0 <= i < j < |winners| ==> OfferId(winners[i]) != OfferId(winners[j])
    requires forall c {:trigger judge(c)} :: judge(c) <==> x.Accepts(c)
    ensures r.Ok? ==> AllPass(judge, r.value) && IdsApart(r.value)
    ensures r.Ok? ==> |r.value| == |winners|
    ensures r.Ok? ==>
      forall j :: 0 <= j < |winners| ==> r.value[j].Id() == OfferId(winners[j])
    ensures r.Err? ==> x.Baseless(r.error.source, r.error.target)
  {
    var results: seq<MatchCandidate> := [];
    for i := 0 to |winners|
      invariant |results| == i && forall j :: 0 <= j < i ==> results[j].Id() == OfferId(winners[j])
      invariant AllPass(judge, results) && IdsApart(results)
    {
      var candidate := WinnerCandidate(x, winners[i]);
      if candidate.Err? {
        return Err(candidate.error);
      }
      results := AppendCandidate(judge, results, candidate.value);
    }
    r := Ok(results);
  }

  function OfferId(o: Offer): MatchId
  {
    MatchId(o.source, o.target)
  }

  method WinnerCandidates(x: MatchInput, winners: seq<Offer>) returns (r: Result<seq<MatchCandidate>, MatchId>)
    requires x.profile.Valid() && Distinct(winners)
    requires forall o :: o in winners <==>
      x.Phase2().Wins(o.source, o.target) && o.value == x.Phase2().value(o.source, o.target)
    ensures r.Ok? ==> AreCandidates(x, r.value)
    ensures r.Ok? ==> forall i :: 0 <= i < |r.value| ==> x.Phase2().Wins(r.value[i].source, r.value[i].target)
    ensures r.Ok? ==> forall s, t :: x.Phase2().Wins(s, t) ==> Lists(r.value, s, t)
    ensures r.Err? ==> x.Baseless(r.error.source, r.error.target)
  {
    ghost var judge := (c: MatchCandidate) => x.Accepts(c);
    forall i | 0 <= i < |winners|
      ensures x.Phase2().Wins(winners[i].source, winners[i].target)
      ensures winners[i].value == x.Phase2().value(winners[i].source, winners[i].target)
    {
      assert winners[i] in winners;
    }
    forall i, j | 0 <= i < j < |winners|
      ensures OfferId(winners[i]) != OfferId(winners[j])
    {
      assert winners[i] != winners[j];
    }
    r := OfferCandidates(x, winners, judge);
    if r.Err? {
      return;
    }
    var results := r.value;
    PassIsAccepted(x, judge, results);
    forall s, t | x.Phase2().Wins(s, t)
      ensures Lists(results, s, t)
    {
      assert Offer(x.Phase2().value(s, t), s, t) in winners;
      var i :| 0 <= i < |winners| && winners[i] == Offer(x.Phase2().value(s, t), s, t);
      assert results[i].Id() == MatchId(s, t);
    }
  }

  lemma WinHasNoEdge(x: MatchInput, s: NodeRef, t: NodeRef)
    requires x.Phase2().Wins(s, t)
    ensures !x.Phase2().Edge(s, t)
  {
  }

  method SimilarityMatches(x: MatchInput, sources: set<NodeRef>, targets: set<NodeRef>)
    returns (ambiguous: seq<MatchCandidate>, confirmed: seq<MatchCandidate>, baseless: Option<MatchId>)
    requires x.profile.Valid() && sources == x.FreeSources() && targets == x.FreeTargets()
    ensures baseless == None ==> AreCandidates(x, ambiguous) && AreCandidates(x, confirmed)
    ensures baseless == None ==>
      forall i :: 0 <= i < |ambiguous| ==> x.Phase2().Edge(ambiguous[i].source, ambiguous[i].target)
    ensures baseless == None ==>
      forall i :: 0 <= i < |confirmed| ==> x.Phase2().Wins(confirmed[i].source, confirmed[i].target)
    ensures baseless == None ==> forall s, t :: x.Phase2().Edge(s, t) ==> Lists(ambiguous, s, t)
    ensures baseless == None ==> forall s, t :: x.Phase2().Wins(s, t) ==> Lists(confirmed, s, t)
    ensures baseless.Some? ==> x.Baseless(baseless.value.source, baseless.value.target)
  {
    var contest := x.ContestOver(sources, targets);
    var freeSources := SortRefs(sources);
    var freeTargets := SortRefs(targets);
    var rows := ScoreRows(contest, freeSources, freeTargets);
    var edges := AmbiguousEdges(contest, rows, freeSources);
    var held := AmbiguousCandidates(x, edges);
    if held.Err? {
      return [], [], Some(held.error);
    }
    var offers := CollectOffers(contest, rows, freeSources, edges);
    var winners := ConfirmOffers(contest, offers);
    var won := WinnerCandidates(x, winners);
    if won.Err? {
      return [], [], Some(won.error);
    }
    return held.value, won.value, None;
  }

  // ---------------------------------------------------------------- the matcher

  /** `match`: both phases, then the candidates in reference order; the first candidate without evidence raises. */
  method Match(ev: EvidenceIndex, profile: MatchingProfile) returns (r: Result<MatchGraph, MatchId>)
    requires profile.Valid()
    ensures r.Ok? ==> MatchInput(ev, profile).IsGraph(r.value) && forall c :: c in r.value.candidates ==> c.WellFormed()
    ensures r.Err? ==> MatchInput(ev, profile).Baseless(r.error.source, r.error.target)
    ensures r.Err? <==> MatchInput(ev, profile).Raises()
  {
    var x := MatchInput(ev, profile);
    var authoritative: seq<MatchCandidate> := [];
    if PersistentId in profile.authoritative {
      var identified := AuthoritativeMatches(x);
      if identified.Err? {
        return Err(identified.error);
      }
      authoritative := identified.value;
    }
    var matched := set c | c in authoritative && c.state == Confirmed :: c.Id();
    MatchedIsAuthConfirmed(x, authoritative, matched);
    var matchedSources := set id | id in matched :: id.source;
    var matchedTargets := set id | id in matched :: id.target;
    var sources := set s | s in ev.source && s !in matchedSources;
    var targets := set t | t in ev.target && t !in matchedTargets;
    FreeIsUnmatched(x, matched);
    var ambiguous, confirmed, baseless := SimilarityMatches(x, sources, targets);
    if baseless.Some? {
      return Err(baseless.value);
    }
    PairTotalPreorder();
    var all := authoritative + ambiguous + confirmed;
    AllPhases(x, authoritative, ambiguous, confirmed);
    var candidates := Sort(CandidateNotAbove, all);
    SortedIsGraph(x, all, candidates);
    CandidatesAreWellFormedIff(x, MatchGraph(candidates));
    r := Ok(MatchGraph(candidates));
  }

  lemma MatchedIsAuthConfirmed(x: MatchInput, authoritative: seq<MatchCandidate>, matched: set<MatchId>)
    requires AreCandidates(x, authoritative)
    requires forall i :: 0 <= i < |authoritative| ==> x.AuthPair(authoritative[i].source, authoritative[i].target)
    requires forall s, t :: x.AuthPair(s, t) ==> Lists(authoritative, s, t)
    requires matched == set c | c in authoritative && c.state == Confirmed :: c.Id()
    ensures forall s, t :: MatchId(s, t) in matched <==> x.AuthConfirmed(s, t)
  {
    forall s, t | MatchId(s, t) in matched
      ensures x.AuthConfirmed(s, t)
    {
      var c :| c in authoritative && c.state == Confirmed && c.Id() == MatchId(s, t);
      var i :| 0 <= i < |authoritative| && authoritative[i] == c;
      assert x.Accepts(authoritative[i]);
    }
    forall s, t | x.AuthConfirmed(s, t)
      ensures MatchId(s, t) in matched
    {
      var i :| 0 <= i < |authoritative| && authoritative[i].source == s && authoritative[i].target == t;
      assert x.Accepts(authoritative[i]);
      assert authoritative[i] in authoritative && authoritative[i].state == Confirmed;
      assert authoritative[i].Id() in matched;
    }
  }

  lemma FreeIsUnmatched(x: MatchInput, matched: set<MatchId>)
    requires forall s, t :: MatchId(s, t) in matched <==> x.AuthConfirmed(s, t)
    ensures x.FreeSources() == set s | s in x.ev.source && s !in set id | id in matched :: id.source
    ensures x.FreeTargets() == set t | t in x.ev.target && t !in set id | id in matched :: id.target
  {
    forall id | id in matched
      ensures x.AuthConfirmed(id.source, id.target)
    {
      assert id == MatchId(id.source, id.target);
    }
    forall s, t | x.AuthConfirmed(s, t)
      ensures s in (set id | id in matched :: id.source) && t in set id | id in matched :: id.target
    {
      assert MatchId(s, t) in matched;
    }
  }

  lemma AllPhases(x: MatchInput, a: seq<MatchCandidate>, b: seq<MatchCandidate>, c: seq<MatchCandidate>)
    requires AreCandidates(x, a) && AreCandidates(x, b) && AreCandidates(x, c)
    requires forall i :: 0 <= i < |a| ==> x.AuthPair(a[i].source, a[i].target)
    requires forall i :: 0 <= i < |b| ==> x.Phase2().Edge(b[i].source, b[i].target)
    requires forall i :: 0 <= i < |c| ==> x.Phase2().Wins(c[i].source, c[i].target)
    requires forall s, t :: x.AuthPair(s, t) ==> Lists(a, s, t)
    requires forall s, t :: x.Phase2().Edge(s, t) ==> Lists(b, s, t)
    requires forall s, t :: x.Phase2().Wins(s, t) ==> Lists(c, s, t)
    ensures AreCandidates(x, a + b + c)
    ensures forall s, t :: x.Verdict(s, t).Some? ==> Lists(a + b + c, s, t)
  {
    forall i, j | 0 <= i < |a| && 0 <= j < |b|
      ensures a[i].Id() != b[j].Id()
    {
      Phase2IsFree(x, b[j].source, b[j].target);
    }
    JoinPhases(x, a, b);
    forall i, j | 0 <= i < |a + b| && 0 <= j < |c|
      ensures (a + b)[i].Id() != c[j].Id()
    {
      Phase2IsFree(x, c[j].source, c[j].target);
      WinHasNoEdge(x, c[j].source, c[j].target);
    }
    JoinPhases(x, a + b, c);
  }

  lemma JoinPhases(x: MatchInput, a: seq<MatchCandidate>, b: seq<MatchCandidate>)
    requires AreCandidates(x, a) && AreCandidates(x, b)
    requires forall i, j :: 0 <= i < |a| && 0 <= j < |b| ==> a[i].Id() != b[j].Id()
    ensures AreCandidates(x, a + b)
    ensures forall s, t :: Lists(a, s, t) || Lists(b, s, t) ==> Lists(a + b, s, t)
  {
    forall s, t | Lists(a, s, t) || Lists(b, s, t)
      ensures Lists(a + b, s, t)
    {
      if Lists(a, s, t) {
        var i :| 0 <= i < |a| && a[i].source == s && a[i].target == t;
        assert (a + b)[i] == a[i];
      } else {
        var i :| 0 <= i < |b| && b[i].source == s && b[i].target == t;
        assert (a + b)[|a| + i] == b[i];
      }
    }
  }

  lemma SortedIsGraph(x: MatchInput, all: seq<MatchCandidate>, candidates: seq<MatchCandidate>)
    requires AreCandidates(x, all)
    requires forall s, t :: x.Verdict(s, t).Some? ==> Lists(all, s, t)
    requires OrderedBy(CandidateNotAbove, candidates)
    requires multiset(candidates) == multiset(all) && |candidates| == |all|
    ensures x.IsGraph(MatchGraph(candidates)) && forall c :: c in candidates ==> c.WellFormed()
  {
    assert forall c :: c in candidates <==> c in all by {
      forall c ensures c in candidates <==> c in all {
        assert c in candidates <==> c in multiset(candidates);
        assert c in all <==> c in multiset(all);
      }
    }
    forall c | c in candidates
      ensures x.Describes(c) && c.WellFormed()
    {
      var i :| 0 <= i < |all| && all[i] == c;
      assert x.Accepts(all[i]);
    }
    forall s, t | x.Verdict(s, t).Some?
      ensures exists c :: c in candidates && c.source == s && c.target == t
    {
      var i :| 0 <= i < |all| && all[i].source == s && all[i].target == t;
      assert all[i] in all;
    }
    assert Distinct(all);
    DistinctCounts(all);
    MultisetDistinct(candidates);
    forall i, j | 0 <= i < j < |candidates|
      ensures PairBelow(candidates[i].Id(), candidates[j].Id())
    {
      assert CandidateNotAbove(candidates[i], candidates[j]);
      assert candidates[i] in all && candidates[j] in all && candidates[i] != candidates[j];
      IdsDiffer(all, candidates[i], candidates[j]);
    }
  }

  lemma IdsDiffer(all: seq<MatchCandidate>, a: MatchCandidate, b: MatchCandidate)
    requires IdsApart(all) && a in all && b in all && a != b
    ensures a.Id() != b.Id()
  {
    var i :| 0 <= i < |all| && all[i] == a;
    var j :| 0 <= j < |all| && all[j] == b;
    assert i < j || j < i;
  }
}
