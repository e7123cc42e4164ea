/** The configuration contracts that steer matching, alignment, classification and suppression. */
module Profiles {

  datatype EvidenceType =
    | PersistentId
    | SemanticSignature
    | NormalizedLabel
    | NodeTypeEvidence
    | ChildSignature
    | AncestorContext
    | WeightedSimilarity

  datatype FeatureWeight = FeatureWeight(feature: EvidenceType, weight: real)

  datatype MatchingProfile = MatchingProfile(
    priority: seq<EvidenceType>,
    featureWeights: seq<FeatureWeight>,
    authoritative: set<EvidenceType>,
    hardNodeType: bool,
    matchThreshold: real,
    probableThreshold: real,
    ambiguityMargin: real)
  {
    predicate Valid()
    {
      0.0 <= probableThreshold <= matchThreshold <= 1.0 && 0.0 <= ambiguityMargin <= 1.0 &&
      forall fw :: fw in featureWeights ==> fw.weight >= 0.0
    }

    /** The first listed weight of a feature, or zero. */
    function WeightFor(feature: EvidenceType): real
    {
      WeightIn(featureWeights, feature)
    }
  }

  function WeightIn(weights: seq<FeatureWeight>, feature: EvidenceType): real
  {
    if weights == [] then 0.0
    else if weights[0].feature == feature then weights[0].weight
    else WeightIn(weights[1..], feature)
  }

  /** `w` is the weight of the first entry for the feature; without an entry it is zero. */
  ghost predicate IsFirstWeight(weights: seq<FeatureWeight>, feature: EvidenceType, w: real)
  {
    (w == 0.0 && forall i :: 0 <= i < |weights| ==> weights[i].feature != feature) ||
    exists i: nat :: IsFirstEntry(weights, feature, w, i)
  }

  ghost predicate IsFirstEntry(weights: seq<FeatureWeight>, feature: EvidenceType, w: real, i: nat)
  {
    i < |weights| && weights[i].feature == feature && weights[i].weight == w &&
    forall j :: 0 <= j < i ==> weights[j].feature != feature
  }

  lemma {:induction false} WeightIsFirst(weights: seq<FeatureWeight>, feature: EvidenceType)
    ensures IsFirstWeight(weights, feature, WeightIn(weights, feature))
  {
    if weights != [] && weights[0].feature != feature {
      var rest := weights[1..];
      WeightIsFirst(rest, feature);
      assert forall j :: 0 < j < |weights| ==> weights[j] == rest[j - 1];
      if i: nat :| IsFirstEntry(rest, feature, WeightIn(rest, feature), i) {
        assert IsFirstEntry(weights, feature, WeightIn(rest, feature), i + 1);
      }
    } else if weights != [] {
      assert IsFirstEntry(weights, feature, weights[0].weight, 0);
    }
  }

  datatype AlignmentProfile = AlignmentProfile(defaultOrdered: bool, orderedByType: map<string, bool>)
  {
    predicate OrderedFor(nodeType: string)
    {
      if nodeType in orderedByType then orderedByType[nodeType] else defaultOrdered
    }
  }

  datatype OperationType = Match | Insert | Delete | Update | Move | Reorder

  /** How INSERT and DELETE behave where correspondence is unresolved. */
  datatype PresencePolicy = SuppressAmbiguousNodes | SuppressUnresolvedRegions | EmitAll

  datatype OperationProfile = OperationProfile(
    enabled: set<OperationType>,
    moveThreshold: real,
    presence: PresencePolicy)
  {
    predicate Valid()
    {
      0.0 <= moveThreshold <= 1.0
    }

    /** The initial vocabulary, enabled by default. */
    predicate AllEnabled()
    {
      enabled == {Match, Insert, Delete, Update, Move, Reorder}
    }
  }

  /** `excluded` content keys are dropped, `preserved` ones never rewritten; no key may be both. */
  datatype NormalizationProfile = NormalizationProfile(
    collapseWhitespace: bool,
    excluded: set<string>,
    preserved: set<string>)
  {
    predicate Valid()
    {
      excluded !! preserved
    }
  }

  datatype SuppressionRule = SuppressionRule(
    ruleId: string,
    rootOperation: OperationType,
    effectCategory: string,
    threshold: real)

  datatype SuppressionProfile = SuppressionProfile(rules: seq<SuppressionRule>)
}
