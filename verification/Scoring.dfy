/** Constraint evaluation and the applicability-normalised weighted feature score. */
module Scoring {
  import opened Options
  import opened Profiles
  import opened Evidence

  datatype Constraint = NodeTypeCompatibility

  datatype Violations = Violations(hard: seq<Constraint>, soft: seq<Constraint>)

  function EvaluateConstraints(s: NodeEvidence, t: NodeEvidence, p: MatchingProfile): (v: Violations)
    ensures v.hard != [] <==> s.nodeType != t.nodeType && p.hardNodeType
    ensures |v.hard| + |v.soft| == if s.nodeType == t.nodeType then 0 else 1
  {
    if s.nodeType == t.nodeType then Violations([], [])
    else if p.hardNodeType then Violations([NodeTypeCompatibility], [])
    else Violations([], [NodeTypeCompatibility])
  }

  datatype EvidenceItem = EvidenceItem(code: EvidenceType, weight: real, value: Option<string>)

  datatype FeatureScore = FeatureScore(value: real, contributions: seq<EvidenceItem>)

  /** One signal comparison: does it apply to the pair, and did it agree. */
  datatype Feature = Feature(kind: EvidenceType, applicable: bool, matched: bool, value: Option<string>)

  function PersistentIdFeature(s: NodeEvidence, t: NodeEvidence): Feature
  {
    Feature(PersistentId, s.persistentId.Some? || t.persistentId.Some?,
            s.persistentId.Some? && s.persistentId == t.persistentId, s.persistentId)
  }

  function SignatureFeature(s: NodeEvidence, t: NodeEvidence): Feature
  {
    Feature(SemanticSignature, true, s.signature == t.signature, None)
  }

  function LabelFeature(s: NodeEvidence, t: NodeEvidence): Feature
  {
    Feature(NormalizedLabel, s.labelText.Some? || t.labelText.Some?,
            s.labelText.Some? && s.labelText == t.labelText, s.labelText)
  }

  function ChildFeature(s: NodeEvidence, t: NodeEvidence): Feature
  {
    Feature(WeightedSimilarity, true, s.childSignature == t.childSignature, None)
  }

  function FeaturesOf(s: NodeEvidence, t: NodeEvidence): seq<Feature>
  {
    [PersistentIdFeature(s, t), SignatureFeature(s, t), LabelFeature(s, t), ChildFeature(s, t)]
  }

  /** The feature takes part in the score at all. */
  predicate Counts(p: MatchingProfile, f: Feature)
  {
    p.WeightFor(f.kind) > 0.0 && f.applicable
  }

  function TotalWeight(p: MatchingProfile, fs: seq<Feature>): (w: real)
    ensures w >= 0.0
  {
    if fs == [] then 0.0
    else
      var last := fs[|fs| - 1];
      TotalWeight(p, fs[..|fs| - 1]) + if Counts(p, last) then p.WeightFor(last.kind) else 0.0
  }

  function MatchedWeight(p: MatchingProfile, fs: seq<Feature>): (w: real)
    ensures 0.0 <= w <= TotalWeight(p, fs)
    ensures w > 0.0 <==> exists f :: f in fs && Counts(p, f) && f.matched
  {
    if fs == [] then 0.0
    else
      var last := fs[|fs| - 1];
      assert fs == fs[..|fs| - 1] + [last];
      MatchedWeight(p, fs[..|fs| - 1]) + if Counts(p, last) && last.matched then p.WeightFor(last.kind) else 0.0
  }

  function Contributions(p: MatchingProfile, fs: seq<Feature>): (items: seq<EvidenceItem>)
    ensures items != [] <==> exists f :: f in fs && Counts(p, f) && f.matched
  {
    if fs == [] then []
    else
      var last := fs[|fs| - 1];
      assert fs == fs[..|fs| - 1] + [last];
      Contributions(p, fs[..|fs| - 1]) +
      if Counts(p, last) && last.matched
      then [EvidenceItem(last.kind, p.WeightFor(last.kind), last.value)] else []
  }

  /** The score of a pair: agreeing weight over applicable weight. */
  function ScoreOf(s: NodeEvidence, t: NodeEvidence, p: MatchingProfile): FeatureScore
  {
    var fs := FeaturesOf(s, t);
    var total := TotalWeight(p, fs);
    FeatureScore(if total > 0.0 then MatchedWeight(p, fs) / total else 0.0, Contributions(p, fs))
  }

  /** Scores are fractions, and a score is positive exactly when some evidence supports it. */
  lemma ScoreIsSupportedFraction(s: NodeEvidence, t: NodeEvidence, p: MatchingProfile)
    ensures 0.0 <= ScoreOf(s, t, p).value <= 1.0
    ensures ScoreOf(s, t, p).value > 0.0 <==> ScoreOf(s, t, p).contributions != []
  {
    var fs := FeaturesOf(s, t);
    var total, matched := TotalWeight(p, fs), MatchedWeight(p, fs);
    if total > 0.0 {
      DivideBetween(matched, total);
    }
  }

  // ---------------------------------------------------------------- the four signals, one by one

  /** A feature without positive weight takes no part. */
  function WeightUnless(skip: bool, p: MatchingProfile, kind: EvidenceType): real
  {
    if skip || p.WeightFor(kind) <= 0.0 then 0.0 else p.WeightFor(kind)
  }

  /** Identifier and label apply where one side has them, signature and child types always. */
  function Applicable(s: NodeEvidence, t: NodeEvidence, p: MatchingProfile): real
  {
    WeightUnless(s.persistentId == None && t.persistentId == None, p, PersistentId) +
    WeightUnless(false, p, SemanticSignature) +
    WeightUnless(s.labelText == None && t.labelText == None, p, NormalizedLabel) +
    WeightUnless(false, p, WeightedSimilarity)
  }

  /** Identifier and label agree where both sides have the same one. */
  function Agreeing(s: NodeEvidence, t: NodeEvidence, p: MatchingProfile): real
  {
    WeightUnless(s.persistentId == None || s.persistentId != t.persistentId, p, PersistentId) +
    WeightUnless(s.signature != t.signature, p, SemanticSignature) +
    WeightUnless(s.labelText == None || s.labelText != t.labelText, p, NormalizedLabel) +
    WeightUnless(s.childSignature != t.childSignature, p, WeightedSimilarity)
  }

  function ItemIf(shown: bool, p: MatchingProfile, kind: EvidenceType, value: Option<string>): seq<EvidenceItem>
  {
    if shown && p.WeightFor(kind) > 0.0 then [EvidenceItem(kind, p.WeightFor(kind), value)] else []
  }

  /** Agreeing weight over applicable weight, with one contribution per agreeing signal of positive weight. */
  ghost predicate IsScore(score: FeatureScore, s: NodeEvidence, t: NodeEvidence, p: MatchingProfile)
  {
    IsQuotient(score.value, Agreeing(s, t, p), Applicable(s, t, p)) && score.contributions == AllShown(s, t, p)
  }

  ghost predicate IsQuotient(value: real, part: real, whole: real)
  {
    (whole > 0.0 ==> value * whole == part) && (whole <= 0.0 ==> value == 0.0)
  }

  function AllShown(s: NodeEvidence, t: NodeEvidence, p: MatchingProfile): seq<EvidenceItem>
  {
    ItemIf(s.persistentId.Some? && s.persistentId == t.persistentId, p, PersistentId, s.persistentId) +
    ItemIf(s.signature == t.signature, p, SemanticSignature, None) +
    ItemIf(s.labelText.Some? && s.labelText == t.labelText, p, NormalizedLabel, s.labelText) +
    ItemIf(s.childSignature == t.childSignature, p, WeightedSimilarity, None)
  }

  ghost function Sum(x: real, y: real, z: real, w: real): real
  {
    x + y + z + w
  }

  lemma FourTotals(p: MatchingProfile, fs: seq<Feature>)
    requires |fs| == 4
    ensures TotalWeight(p, fs) ==
      Sum(WeightUnless(!fs[0].applicable, p, fs[0].kind), WeightUnless(!fs[1].applicable, p, fs[1].kind),
          WeightUnless(!fs[2].applicable, p, fs[2].kind), WeightUnless(!fs[3].applicable, p, fs[3].kind))
  {
    TotalOfLast(p, [], fs[0], fs[..1]);
    TotalOfLast(p, fs[..1], fs[1], fs[..2]);
    TotalOfLast(p, fs[..2], fs[2], fs[..3]);
    TotalOfLast(p, fs[..3], fs[3], fs);
  }

  lemma TotalOfLast(p: MatchingProfile, fs: seq<Feature>, f: Feature, all: seq<Feature>)
    requires all == fs + [f]
    ensures TotalWeight(p, all) == TotalWeight(p, fs) + WeightUnless(!f.applicable, p, f.kind)
  {
    assert all[..|fs|] == fs;
  }

  lemma FourMatches(p: MatchingProfile, fs: seq<Feature>)
    requires |fs| == 4
    ensures MatchedWeight(p, fs) ==
      Sum(WeightUnless(!Agrees(fs[0]), p, fs[0].kind), WeightUnless(!Agrees(fs[1]), p, fs[1].kind),
          WeightUnless(!Agrees(fs[2]), p, fs[2].kind), WeightUnless(!Agrees(fs[3]), p, fs[3].kind))
  {
    MatchedOfLast(p, [], fs[0], fs[..1]);
    MatchedOfLast(p, fs[..1], fs[1], fs[..2]);
    MatchedOfLast(p, fs[..2], fs[2], fs[..3]);
    MatchedOfLast(p, fs[..3], fs[3], fs);
  }

  lemma MatchedOfLast(p: MatchingProfile, fs: seq<Feature>, f: Feature, all: seq<Feature>)
    requires all == fs + [f]
    ensures MatchedWeight(p, all) == MatchedWeight(p, fs) + WeightUnless(!Agrees(f), p, f.kind)
  {
    assert all[..|fs|] == fs;
  }

  lemma FourContributions(p: MatchingProfile, fs: seq<Feature>)
    requires |fs| == 4
    ensures Contributions(p, fs) == ItemsOf(p, fs[0]) + ItemsOf(p, fs[1]) + ItemsOf(p, fs[2]) + ItemsOf(p, fs[3])
  {
    ContributionsOfLast(p, [], fs[0], fs[..1]);
    ContributionsOfLast(p, fs[..1], fs[1], fs[..2]);
    ContributionsOfLast(p, fs[..2], fs[2], fs[..3]);
    ContributionsOfLast(p, fs[..3], fs[3], fs);
  }

  lemma ContributionsOfLast(p: MatchingProfile, fs: seq<Feature>, f: Feature, all: seq<Feature>)
    requires all == fs + [f]
    ensures Contributions(p, all) == Contributions(p, fs) + ItemsOf(p, f)
  {
    assert all[..|fs|] == fs;
  }

  ghost function ItemsOf(p: MatchingProfile, f: Feature): seq<EvidenceItem>
  {
    ItemIf(Agrees(f), p, f.kind, f.value)
  }

  ghost predicate Agrees(f: Feature)
  {
    f.applicable && f.matched
  }

  lemma FeaturesApply(s: NodeEvidence, t: NodeEvidence, p: MatchingProfile)
    ensures TotalWeight(p, FeaturesOf(s, t)) == Applicable(s, t, p)
  {
    FourTotals(p, FeaturesOf(s, t));
  }

  lemma FeaturesAgree(s: NodeEvidence, t: NodeEvidence, p: MatchingProfile)
    ensures MatchedWeight(p, FeaturesOf(s, t)) == Agreeing(s, t, p)
  {
    FourMatches(p, FeaturesOf(s, t));
  }

  lemma FeaturesShow(s: NodeEvidence, t: NodeEvidence, p: MatchingProfile)
    ensures Contributions(p, FeaturesOf(s, t)) == AllShown(s, t, p)
  {
    FourContributions(p, FeaturesOf(s, t));
  }

  /** The score says which signals agree, whatever function computes it. */
  lemma ScoreIsClosedForm(s: NodeEvidence, t: NodeEvidence, p: MatchingProfile)
    ensures IsScore(ScoreOf(s, t, p), s, t, p)
  {
    FeaturesApply(s, t, p);
    FeaturesAgree(s, t, p);
    FeaturesShow(s, t, p);
    Quotient(Agreeing(s, t, p), Applicable(s, t, p));
  }

  lemma Quotient(part: real, whole: real)
    ensures IsQuotient(if whole > 0.0 then part / whole else 0.0, part, whole)
  {
  }

  /** Which evidence of each kind a score shows, and with what weight and value. */
  lemma ContributionsAre(s: NodeEvidence, t: NodeEvidence, p: MatchingProfile, e: EvidenceItem)
    ensures e in ScoreOf(s, t, p).contributions <==>
      p.WeightFor(e.code) > 0.0 && e.weight == p.WeightFor(e.code) &&
      match e.code
      case PersistentId => s.persistentId.Some? && s.persistentId == t.persistentId && e.value == s.persistentId
      case SemanticSignature => s.signature == t.signature && e.value == None
      case NormalizedLabel => s.labelText.Some? && s.labelText == t.labelText && e.value == s.labelText
      case WeightedSimilarity => s.childSignature == t.childSignature && e.value == None
      case _ => false
  {
    FeaturesShow(s, t, p);
  }

  lemma DivideBetween(x: real, y: real)
    requires 0.0 <= x <= y && y > 0.0
    ensures 0.0 <= x / y <= 1.0
    ensures x / y > 0.0 <==> x > 0.0
  {
    assert x == (x / y) * y;
  }

  /** The running tally that the nested `consider` folds one feature into. */
  class Tally {
    var weightedSum: real
    var totalWeight: real
    var contributions: seq<EvidenceItem>
    ghost var seen: seq<Feature>

    ghost predicate Reflects(p: MatchingProfile, fs: seq<Feature>)
      reads this
    {
      seen == fs && weightedSum == MatchedWeight(p, fs) && totalWeight == TotalWeight(p, fs) &&
      contributions == Contributions(p, fs)
    }

    constructor (p: MatchingProfile)
      ensures Reflects(p, [])
    {
      weightedSum, totalWeight, contributions, seen := 0.0, 0.0, [], [];
    }

    method Consider(p: MatchingProfile, f: Feature)
      requires Reflects(p, seen)
      modifies this
      ensures Reflects(p, old(seen) + [f])
    {
      seen := seen + [f];
      assert seen[..|seen| - 1] == old(seen);
      var weight := p.WeightFor(f.kind);
      if weight <= 0.0 || !f.applicable {
        return;
      }
      totalWeight := totalWeight + weight;
      if f.matched {
        weightedSum := weightedSum + weight;
        contributions := contributions + [EvidenceItem(f.kind, weight, f.value)];
      }
    }
  }

  method ScorePair(s: NodeEvidence, t: NodeEvidence, p: MatchingProfile) returns (score: FeatureScore)
    ensures score == ScoreOf(s, t, p)
    ensures IsScore(score, s, t, p)
  {
    ScoreIsClosedForm(s, t, p);
    var tally := new Tally(p);
    tally.Consider(p, PersistentIdFeature(s, t));
    tally.Consider(p, SignatureFeature(s, t));
    tally.Consider(p, LabelFeature(s, t));
    tally.Consider(p, ChildFeature(s, t));
    assert tally.seen == FeaturesOf(s, t);
    score := FeatureScore(
      if tally.totalWeight > 0.0 then tally.weightedSum / tally.totalWeight else 0.0,
      tally.contributions);
  }
}
