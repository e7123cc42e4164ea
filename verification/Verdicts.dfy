/** The matcher's verdicts over evidence and profile: who is confirmed, rejected or kept as ambiguous. */
module Verdicts {
  import opened Options
  import opened Ordering
  import opened Profiles
  import opened Evidence
  import opened Scoring
  import opened Matches
  import opened Contest
  import opened Matcher

  /** The duplicate sets hold exactly the identifiers that two nodes of a side carry. */
  ghost predicate Indexed(x: MatchInput)
  {
    (forall id :: id in x.ev.duplicateSourceIds <==> Duplicated(x.ev.source, id)) &&
    (forall id :: id in x.ev.duplicateTargetIds <==> Duplicated(x.ev.target, id))
  }

  /** Identifiers are authoritative, and this one is carried by `s`, by `t` and by no other node. */
  ghost predicate SharesId(x: MatchInput, s: NodeRef, t: NodeRef)
  {
    PersistentId in x.profile.authoritative && s in x.ev.source && t in x.ev.target &&
    x.ev.source[s].persistentId.Some? && x.ev.source[s].persistentId == x.ev.target[t].persistentId &&
    (forall n :: n in x.ev.source && x.ev.source[n].persistentId == x.ev.source[s].persistentId ==> n == s) &&
    forall n :: n in x.ev.target && x.ev.target[n].persistentId == x.ev.target[t].persistentId ==> n == t
  }

  /** Types agree, unless the profile only notes the difference. */
  ghost predicate TypesFit(x: MatchInput, s: NodeRef, t: NodeRef)
    requires s in x.ev.source && t in x.ev.target
  {
    x.profile.hardNodeType ==> x.ev.source[s].nodeType == x.ev.target[t].nodeType
  }

  ghost predicate ConfirmedById(x: MatchInput, s: NodeRef, t: NodeRef)
  {
    SharesId(x, s, t) && TypesFit(x, s, t)
  }

  ghost predicate FreeSource(x: MatchInput, s: NodeRef)
  {
    s in x.ev.source && forall t :: !ConfirmedById(x, s, t)
  }

  ghost predicate FreeTarget(x: MatchInput, t: NodeRef)
  {
    t in x.ev.target && forall s :: !ConfirmedById(x, s, t)
  }

  /** `v` is the score of the pair. */
  ghost predicate Scores(x: MatchInput, s: NodeRef, t: NodeRef, v: real)
    requires s in x.ev.source && t in x.ev.target
  {
    IsQuotient(v, Agreeing(x.ev.source[s], x.ev.target[t], x.profile),
               Applicable(x.ev.source[s], x.ev.target[t], x.profile))
  }

  /** Two free nodes that may correspond: types fit and the score `v` reaches the probable threshold. */
  ghost predicate MayPair(x: MatchInput, s: NodeRef, t: NodeRef, v: real)
  {
    FreeSource(x, s) && FreeTarget(x, t) && TypesFit(x, s, t) && Scores(x, s, t, v) && v >= x.profile.probableThreshold
  }

  /** `b` is a best target of `s` that reaches the threshold, within the margin of `v`. */
  ghost predicate BestWithin(x: MatchInput, s: NodeRef, v: real, b: NodeRef, w: real)
  {
    MayPair(x, s, b, w) && w >= x.profile.matchThreshold && w - v <= x.profile.ambiguityMargin &&
    forall c, u :: MayPair(x, s, c, u) ==> u <= w
  }

  /** `t` is within the margin of a best target of `s`, and that one reaches the match threshold. */
  ghost predicate NearBest(x: MatchInput, s: NodeRef, t: NodeRef, v: real)
  {
    MayPair(x, s, t, v) && exists b, w :: BestWithin(x, s, v, b, w)
  }

  ghost predicate NearSome(x: MatchInput, s: NodeRef, t: NodeRef)
  {
    exists v :: NearBest(x, s, t, v)
  }

  /** `v` beats the score of every other target of `s` by more than the margin. */
  ghost predicate BeatsOthers(x: MatchInput, s: NodeRef, t: NodeRef, v: real)
  {
    forall c, u :: c != t && MayPair(x, s, c, u) ==> v - u > x.profile.ambiguityMargin
  }

  /** If `n` is near `t` at all, it is near nothing else and behind `v` by more than the margin. */
  ghost predicate FallsBehind(x: MatchInput, t: NodeRef, v: real, n: NodeRef)
  {
    forall u :: NearBest(x, n, t, u) ==>
      v - u > x.profile.ambiguityMargin && forall c :: c != t ==> !NearSome(x, n, c)
  }

  /** `t` reaches the threshold, beats every other target of `s`, and every other source falls behind. */
  ghost predicate ClearlyBest(x: MatchInput, s: NodeRef, t: NodeRef, v: real)
  {
    MayPair(x, s, t, v) && v >= x.profile.matchThreshold && BeatsOthers(x, s, t, v) &&
    forall n :: n != s ==> FallsBehind(x, t, v, n)
  }

  // ---------------------------------------------------------------- the contest is the one of the profile

  lemma HolderIffSole(x: MatchInput, n: NodeRef)
    requires Indexed(x)
    ensures Holder(x.ev.source, x.ev.duplicateSourceIds, n) <==>
      n in x.ev.source && x.ev.source[n].persistentId.Some? &&
      forall m :: m in x.ev.source && x.ev.source[m].persistentId == x.ev.source[n].persistentId ==> m == n
    ensures Holder(x.ev.target, x.ev.duplicateTargetIds, n) <==>
      n in x.ev.target && x.ev.target[n].persistentId.Some? &&
      forall m :: m in x.ev.target && x.ev.target[m].persistentId == x.ev.target[n].persistentId ==> m == n
  {
    HolderIffSoleOn(x.ev.source, x.ev.duplicateSourceIds, n);
    HolderIffSoleOn(x.ev.target, x.ev.duplicateTargetIds, n);
  }

  lemma HolderIffSoleOn(side: Side, duplicates: set<string>, n: NodeRef)
    requires forall id :: id in duplicates <==> Duplicated(side, id)
    ensures Holder(side, duplicates, n) <==>
      n in side && side[n].persistentId.Some? &&
      forall m :: m in side && side[m].persistentId == side[n].persistentId ==> m == n
  {
    if n in side && side[n].persistentId.Some? {
      var id := side[n].persistentId.value;
      if m :| m in side && m != n && side[m].persistentId == side[n].persistentId { assert Duplicated(side, id); }
    }
  }

  lemma SharesIffAuthPair(x: MatchInput, s: NodeRef, t: NodeRef)
    requires Indexed(x)
    ensures SharesId(x, s, t) <==> x.AuthPair(s, t)
    ensures ConfirmedById(x, s, t) <==> x.AuthConfirmed(s, t)
  {
    HolderIffSole(x, s);
    HolderIffSole(x, t);
  }

  lemma ScoresIffValue(x: MatchInput, s: NodeRef, t: NodeRef, v: real)
    requires s in x.ev.source && t in x.ev.target
    ensures Scores(x, s, t, v) <==> v == x.PairScore(s, t).value
  {
    ScoreIsClosedForm(x.ev.source[s], x.ev.target[t], x.profile);
    var part := Agreeing(x.ev.source[s], x.ev.target[t], x.profile);
    var whole := Applicable(x.ev.source[s], x.ev.target[t], x.profile);
    if Scores(x, s, t, v) { QuotientUnique(v, x.PairScore(s, t).value, part, whole); }
  }

  lemma QuotientUnique(v: real, w: real, part: real, whole: real)
    requires IsQuotient(v, part, whole) && IsQuotient(w, part, whole)
    ensures v == w
  {
    if whole > 0.0 { assert (v - w) * whole == 0.0; }
  }

  lemma MayPairIffPlausible(x: MatchInput, s: NodeRef, t: NodeRef, v: real)
    requires Indexed(x)
    ensures MayPair(x, s, t, v) <==> x.Phase2().Plausible(s, t) && v == x.Phase2().value(s, t)
  {
    FreeIff(x, s);
    FreeIff(x, t);
    if s in x.ev.source && t in x.ev.target { ScoresIffValue(x, s, t, v); }
  }

  lemma FreeIff(x: MatchInput, n: NodeRef)
    requires Indexed(x)
    ensures FreeSource(x, n) <==> n in x.FreeSources()
    ensures FreeTarget(x, n) <==> n in x.FreeTargets()
  {
    forall m
      ensures ConfirmedById(x, n, m) <==> x.AuthConfirmed(n, m)
      ensures ConfirmedById(x, m, n) <==> x.AuthConfirmed(m, n)
    {
      SharesIffAuthPair(x, n, m);
      SharesIffAuthPair(x, m, n);
    }
  }

  /** `c` is the contest of these pairs and scores. */
  ghost predicate Mirrors(x: MatchInput, c: Contest)
  {
    c.threshold == x.profile.matchThreshold && c.margin == x.profile.ambiguityMargin &&
    forall s, t, v :: MayPair(x, s, t, v) <==> c.Plausible(s, t) && v == c.value(s, t)
  }

  lemma Phase2Mirrors(x: MatchInput)
    requires Indexed(x)
    ensures Mirrors(x, x.Phase2())
  {
    forall s, t, v
      ensures MayPair(x, s, t, v) <==> x.Phase2().Plausible(s, t) && v == x.Phase2().value(s, t)
    {
      MayPairIffPlausible(x, s, t, v);
    }
  }

  lemma BestWithinIff(x: MatchInput, c: Contest, s: NodeRef, v: real, b: NodeRef)
    requires Mirrors(x, c)
    ensures BestWithin(x, s, v, b, c.value(s, b)) <==>
      c.AtBest(s, b) && c.value(s, b) >= c.threshold && c.value(s, b) - v <= c.margin
  {
    if c.AtBest(s, b) {
      assert MayPair(x, s, b, c.value(s, b));
    }
    if BestWithin(x, s, v, b, c.value(s, b)) {
      forall t2 | c.Plausible(s, t2)
        ensures c.value(s, t2) <= c.value(s, b)
      {
        assert MayPair(x, s, t2, c.value(s, t2));
      }
    }
  }

  lemma NearBestIffNear(x: MatchInput, c: Contest, s: NodeRef, t: NodeRef, v: real)
    requires Mirrors(x, c)
    ensures NearBest(x, s, t, v) <==> c.Near(s, t) && v == c.value(s, t)
  {
    if c.Near(s, t) && v == c.value(s, t) {
      var b :| c.AtBest(s, b) && c.value(s, b) >= c.threshold && c.value(s, b) - c.value(s, t) <= c.margin;
      BestWithinIff(x, c, s, v, b);
    }
    if NearBest(x, s, t, v) {
      var b, w :| BestWithin(x, s, v, b, w);
      BestWithinIff(x, c, s, v, b);
    }
  }

  /** The condition on other sources, in both vocabularies. */
  lemma RivalsIff(x: MatchInput, c: Contest, s: NodeRef, t: NodeRef, n: NodeRef)
    requires Mirrors(x, c)
    ensures FallsBehind(x, t, c.value(s, t), n) <==>
      (c.Near(n, t) ==> (forall t2 :: t2 != t ==> !c.Near(n, t2)) && c.value(s, t) - c.value(n, t) > c.margin)
  {
    NearBestIffNear(x, c, n, t, c.value(n, t));
    forall u
      ensures NearBest(x, n, t, u) <==> c.Near(n, t) && u == c.value(n, t)
    {
      NearBestIffNear(x, c, n, t, u);
    }
    forall t2
      ensures c.Near(n, t2) <==> NearSome(x, n, t2)
    {
      NearBestIffNear(x, c, n, t2, c.value(n, t2));
      if w :| NearBest(x, n, t2, w) { NearBestIffNear(x, c, n, t2, w); }
    }
  }

  lemma ClearlyBestIffSettled(x: MatchInput, c: Contest, s: NodeRef, t: NodeRef, v: real)
    requires Mirrors(x, c)
    ensures ClearlyBest(x, s, t, v) <==> c.Settled(s, t) && v == c.value(s, t)
  {
    if v == c.value(s, t) && c.Plausible(s, t) {
      OthersIff(x, c, s, t);
      forall n
        ensures FallsBehind(x, t, v, n) <==>
          (c.Near(n, t) ==> (forall t2 :: t2 != t ==> !c.Near(n, t2)) && c.value(s, t) - c.value(n, t) > c.margin)
      {
        RivalsIff(x, c, s, t, n);
      }
    }
  }

  lemma OthersIff(x: MatchInput, c: Contest, s: NodeRef, t: NodeRef)
    requires Mirrors(x, c)
    ensures BeatsOthers(x, s, t, c.value(s, t)) <==>
      forall t2 :: t2 != t && c.Plausible(s, t2) ==> c.value(s, t) - c.value(s, t2) > c.margin
  {
    if BeatsOthers(x, s, t, c.value(s, t)) {
      forall t2 | t2 != t && c.Plausible(s, t2)
        ensures c.value(s, t) - c.value(s, t2) > c.margin
      {
        assert MayPair(x, s, t2, c.value(s, t2));
      }
    }
  }

  // ---------------------------------------------------------------- the verdicts

  /**
   * The graph confirms exactly the pairs that share an authoritative identifier with fitting types and
   * the pairs of free nodes where the target is clearly best.
   */
  lemma ConfirmedIff(x: MatchInput, g: MatchGraph, s: NodeRef, t: NodeRef)
    requires Indexed(x) && x.profile.Valid() && x.IsGraph(g)
    ensures g.Pairs(s, t) <==> ConfirmedById(x, s, t) || exists v :: ClearlyBest(x, s, t, v)
  {
    CandidateAt(x, g, s, t);
    SharesIffAuthPair(x, s, t);
    Phase2Mirrors(x);
    SettledIff(x, x.Phase2(), s, t);
    ConfirmationIgnoresNames(x.Phase2(), s, t);
    if x.Phase2().Wins(s, t) { WinsIsNoEdge(x, s, t); }
  }

  lemma SettledIff(x: MatchInput, c: Contest, s: NodeRef, t: NodeRef)
    requires Mirrors(x, c)
    ensures c.Settled(s, t) <==> exists v :: ClearlyBest(x, s, t, v)
  {
    ClearlyBestIffSettled(x, c, s, t, c.value(s, t));
    if v :| ClearlyBest(x, s, t, v) { ClearlyBestIffSettled(x, c, s, t, v); }
  }

  lemma WinsIsNoEdge(x: MatchInput, s: NodeRef, t: NodeRef)
    requires x.Phase2().Wins(s, t)
    ensures !x.Phase2().Edge(s, t) && !x.AuthPair(s, t)
  {
    Phase2IsFree(x, s, t);
  }

  /** It rejects exactly the pairs that share an identifier although their types do not fit. */
  lemma RejectedIff(x: MatchInput, s: NodeRef, t: NodeRef)
    requires Indexed(x)
    ensures x.Verdict(s, t) == Some(Rejected) <==> SharesId(x, s, t) && !TypesFit(x, s, t)
  {
    SharesIffAuthPair(x, s, t);
  }

  /** A source whose best target reaches the threshold with another one in the margin is kept with each of them. */
  lemma NearTiesAreAmbiguous(x: MatchInput, s: NodeRef, t: NodeRef, v: real, c: NodeRef, u: real)
    requires Indexed(x) && NearBest(x, s, t, v) && NearBest(x, s, c, u) && t != c
    ensures x.Verdict(s, t) == Some(Ambiguous) && x.Verdict(s, c) == Some(Ambiguous)
  {
    Phase2Mirrors(x);
    NearBestIffNear(x, x.Phase2(), s, t, v);
    NearBestIffNear(x, x.Phase2(), s, c, u);
    assert x.Phase2().SourceEdge(s, t) && x.Phase2().SourceEdge(s, c);
    Phase2IsFree(x, s, t);
    Phase2IsFree(x, s, c);
  }

  /** Every candidate carries the score of its pair with the evidence that agrees. */
  lemma CandidateScores(x: MatchInput, g: MatchGraph, c: MatchCandidate)
    requires x.IsGraph(g) && c in g.candidates && c.source in x.ev.source && c.target in x.ev.target
    ensures IsScore(c.score, x.ev.source[c.source], x.ev.target[c.target], x.profile)
    ensures Indexed(x) ==> c.confidence == if ConfirmedById(x, c.source, c.target) then 1.0 else c.score.value
  {
    ScoreIsClosedForm(x.ev.source[c.source], x.ev.target[c.target], x.profile);
    if Indexed(x) { SharesIffAuthPair(x, c.source, c.target); }
  }

  /** Candidates stand in the order of their sources, then of their targets. */
  lemma CandidatesAreOrdered(x: MatchInput, g: MatchGraph, i: nat, j: nat)
    requires x.IsGraph(g) && i < j < |g.candidates|
    ensures var c, d := g.candidates[i], g.candidates[j];
      Below(c.source, d.source) || (c.source == d.source && Below(c.target, d.target))
  {
    assert PairBelow(g.candidates[i].Id(), g.candidates[j].Id());
  }
}
