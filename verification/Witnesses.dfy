/**
 * Concrete commands on which the engine does what its documentation rules out. Each method runs the
 * engine on two small trees and proves what the delivered result contains.
 */
module Witnesses {
  import opened Options
  import opened Ordering
  import opened Trees
  import opened TreeValidator
  import opened Profiles
  import opened Evidence
  import opened Scoring
  import opened Matches
  import opened Contest
  import opened Matcher
  import opened Alignment
  import opened Aligner
  import opened Operations
  import opened Diagnosis
  import opened Regularity
  import opened Guarantees
  import opened Pipeline
  import opened Suppression
  import opened Cascades
  import opened Localization
  import opened Presence
  import opened Normalization
  import opened Handles
  import opened Engine

  // ---------------------------------------------------------------- commands

  /** A node with an identifier among its identity properties and one text as content. */
  function Item(nodeType: string, parent: Option<NodeRef>, children: seq<NodeRef>, id: string, text: string): Node
  {
    Node(nodeType, parent, children, map["id" := VStr(id)], map["text" := VStr(text)], map[], None)
  }

  /** The nodes below: an identifier, one plain text, and a type without a bar. */
  predicate IsItem(n: Node)
  {
    n.identity.Keys == {"id"} && n.identity["id"].VStr? && n.identity["id"].s != "" &&
    n.content.Keys == {"text"} && n.content["text"].VStr? && Lettered(n.content["text"].s) && '|' !in n.nodeType
  }

  /** `repr` shows such a text as it stands, between single quotes. */
  predicate Lettered(text: string)
  {
    forall c :: c in text ==> 'a' <= c <= 'z'
  }

  /** `_signature` on items: identifier keys are left out, and the text is quoted. */
  function Rendered(n: Node): string
  {
    "type=" + n.nodeType + "|content:text='" + Shown(n) + "'"
  }

  function Shown(n: Node): string
  {
    if "text" in n.content && n.content["text"].VStr? then n.content["text"].s else ""
  }

  lemma {:induction false} BarSplits(a: string, b: string, rest: string, rest': string)
    requires '|' !in a && '|' !in b && a + "|" + rest == b + "|" + rest'
    ensures a == b && rest == rest'
  {
    var x, y := a + "|" + rest, b + "|" + rest';
    assert x[|a|] == '|' && y[|b|] == '|';
    assert forall i :: 0 <= i < |a| ==> x[i] == a[i];
    assert forall i :: 0 <= i < |b| ==> y[i] == b[i];
    assert |a| == |b|;
    assert x[..|a|] == a && y[..|b|] == b && x[|a| + 1..] == rest && y[|b| + 1..] == rest';
  }

  function Quoted(text: string): string
  {
    "content:text='" + text + "'"
  }

  lemma QuotedInjective(a: string, b: string)
    ensures Quoted(a) == Quoted(b) <==> a == b
  {
    assert Quoted(a)[14..|Quoted(a)| - 1] == a && Quoted(b)[14..|Quoted(b)| - 1] == b;
  }

  lemma RenderedParts(n: Node)
    ensures Rendered(n)[5..] == n.nodeType + "|" + Quoted(Shown(n)) && Rendered(n)[..5] == "type="
  {
  }

  lemma ItemContent(n: Node, m: Node)
    requires IsItem(n) && IsItem(m)
    ensures n.content == m.content <==> Shown(n) == Shown(m)
  {
  }

  /** The signature tells items apart by type and content. */
  lemma RenderedTellsApart(n: Node, m: Node)
    requires IsItem(n) && IsItem(m)
    ensures Rendered(n) == Rendered(m) <==> n.nodeType == m.nodeType && n.content == m.content
  {
    ItemContent(n, m);
    RenderedParts(n);
    RenderedParts(m);
    if Rendered(n) == Rendered(m) {
      BarSplits(n.nodeType, m.nodeType, Quoted(Shown(n)), Quoted(Shown(m)));
      QuotedInjective(Shown(n), Shown(m));
    }
  }

  lemma ItemIsItem(nodeType: string, p: Option<NodeRef>, cs: seq<NodeRef>, id: string, text: string)
    requires '|' !in nodeType && id != "" && Lettered(text)
    ensures IsItem(Item(nodeType, p, cs, id, text))
  {
  }

  const VERBATIM := NormalizationProfile(false, {}, {})

  const ANY_SPACES: Spaces := c => c == ' '

  /** Identifiers and signatures count the same; identifiers are not authoritative. */
  const TWO_SIGNALS := MatchingProfile(
    [PersistentId, SemanticSignature],
    [FeatureWeight(PersistentId, 1.0), FeatureWeight(SemanticSignature, 1.0)],
    {}, true, 0.5, 0.4, 0.05)

  const BY_ID :=
    MatchingProfile([PersistentId], [FeatureWeight(PersistentId, 1.0)], {PersistentId}, true, 0.5, 0.4, 0.05)

  const DEFAULT_OPERATIONS :=
    OperationProfile({Match, Insert, Delete, Update, Move, Reorder}, 0.75, SuppressAmbiguousNodes)

  /** The defaults, with ordered children and no suppression. */
  function Compare(source: Tree, target: Tree, matching: MatchingProfile): Command
  {
    CompareUnder(source, target, matching, [])
  }

  function CompareUnder(source: Tree, target: Tree, matching: MatchingProfile, rules: seq<SuppressionRule>): Command
  {
    Command(source, target, VERBATIM, matching, AlignmentProfile(true, map[]), DEFAULT_OPERATIONS,
            SuppressionProfile(rules), ResourceLimits(None, None), false)
  }

  lemma VerbatimKeeps(t: Tree, sp: Spaces)
    ensures Normalizer(VERBATIM, sp).TreeOf(t) == t
  {
    var z := Normalizer(VERBATIM, sp);
    forall n | n in t.nodes
      ensures z.NodeOf(t.nodes[n]) == t.nodes[n]
    {
      assert z.NodeOf(t.nodes[n]).content == t.nodes[n].content;
    }
    assert z.TreeOf(t).nodes == t.nodes;
  }

  /** Weighted identifiers, weighted features with a priority, handles without arrows. */
  ghost predicate Smooth(source: Tree, target: Tree, matching: MatchingProfile)
  {
    source.Valid() && target.Valid() && matching.Valid() &&
    matching.WeightFor(PersistentId) > 0.0 && matching.probableThreshold > 0.0 &&
    (forall fw :: fw in matching.featureWeights ==> fw.feature in matching.priority) &&
    forall n :: n in source.nodes ==> !HasArrow(n)
  }

  predicate RulesEnabled(rules: seq<SuppressionRule>)
  {
    forall rule :: rule in rules ==> rule.rootOperation in DEFAULT_OPERATIONS.enabled
  }

  /** Such comparisons of valid trees pass every check of the engine. */
  lemma PlainIsAdmitted(source: Tree, target: Tree, matching: MatchingProfile, rules: seq<SuppressionRule>)
    requires source.Valid() && target.Valid() && matching.Valid() && RulesEnabled(rules)
    requires forall fw :: fw in matching.featureWeights ==> fw.feature in matching.priority
    ensures var c := CompareUnder(source, target, matching, rules);
      c.Constructed() && c.Admitted()
  {
    ValidIsRooted(source);
    ValidIsRooted(target);
  }

  lemma SmoothIsDelivered(source: Tree, target: Tree, matching: MatchingProfile, rules: seq<SuppressionRule>,
                          lang: Language)
    requires Smooth(source, target, matching) && RulesEnabled(rules)
    ensures var c := CompareUnder(source, target, matching, rules);
      c.Constructed() && c.Admitted() && !c.Input(lang).Raises() && !c.RegionIdsRepeat(lang)
  {
    PlainIsAdmitted(source, target, matching, rules);
    WeightedEngineDelivers(CompareUnder(source, target, matching, rules), lang);
  }

  /** `z` is the run that the engine makes of such a comparison. */
  ghost predicate Ran(source: Tree, target: Tree, matching: MatchingProfile, signature: Node -> string, r: Reconciled,
                      z: Reconciliation)
  {
    r.Complete? && z.Produced() && z.run.ops == r.operations && z.run.profile == DEFAULT_OPERATIONS &&
    z.run.alignment == r.alignment && z.run.x == AlignInput(source, target, r.graph, AlignmentProfile(true, map[])) &&
    z.input == MatchInput(IndexOf(source, target, signature), matching)
  }

  lemma DeliveredRan(source: Tree, target: Tree, matching: MatchingProfile, rules: seq<SuppressionRule>, lang: Language,
                     r: Reconciled, z: Reconciliation, fired: seq<Firing>)
    requires Delivered(CompareUnder(source, target, matching, rules), lang, r, z, fired)
    ensures Ran(source, target, matching, lang.signature, r, z)
    ensures Over(z.run, rules).IsSuppression(r.suppression, fired)
  {
    VerbatimKeeps(source, lang.sp);
    VerbatimKeeps(target, lang.sp);
  }

  /** The engine on valid trees under weighted identifiers. */
  method RunEngine(source: Tree, target: Tree, matching: MatchingProfile, rules: seq<SuppressionRule>,
                   signature: Node -> string)
    returns (r: Reconciled, ghost z: Reconciliation, ghost fired: seq<Firing>)
    requires Smooth(source, target, matching)
    requires RulesEnabled(rules)
    ensures Ran(source, target, matching, signature, r, z) && Over(z.run, rules).IsSuppression(r.suppression, fired)
  {
    var lang := Language(ANY_SPACES, signature);
    SmoothIsDelivered(source, target, matching, rules, lang);
    var result;
    ghost var run;
    result, run, fired := Reconcile(CompareUnder(source, target, matching, rules), lang);
    DeliveredRan(source, target, matching, rules, lang, result.value, run.value, fired);
    r, z := result.value, run.value;
  }

  // ---------------------------------------------------------------- evidence of such trees

  lemma ItemId(n: Node)
    requires "id" in n.identity && n.identity["id"].VStr? && n.identity["id"].s != ""
    ensures PersistentIdOf(n) == Some(n.identity["id"].s)
  {
    assert ID_KEYS[0] == "id";
  }

  /** Two signals of weight one: half a point each. */
  lemma TwoSignalScore(s: NodeEvidence, t: NodeEvidence)
    requires s.persistentId.Some? && t.persistentId.Some?
    ensures ScoreOf(s, t, TWO_SIGNALS).value ==
      (if s.persistentId == t.persistentId then 0.5 else 0.0) + (if s.signature == t.signature then 0.5 else 0.0)
  {
    SignalWeights();
    ScoreIsClosedForm(s, t, TWO_SIGNALS);
    assert Applicable(s, t, TWO_SIGNALS) == 2.0;
  }

  lemma SignalWeights()
    ensures TWO_SIGNALS.WeightFor(PersistentId) == 1.0 && TWO_SIGNALS.WeightFor(SemanticSignature) == 1.0
    ensures TWO_SIGNALS.WeightFor(NormalizedLabel) == 0.0 && TWO_SIGNALS.WeightFor(WeightedSimilarity) == 0.0
    ensures BY_ID.WeightFor(PersistentId) == 1.0
  {
    var w := TWO_SIGNALS.featureWeights;
    assert w[1..] == [FeatureWeight(SemanticSignature, 1.0)] && w[1..][1..] == [];
  }

  /** Both nodes carry an identifier. */
  ghost predicate Carries(t: Tree, n: NodeRef)
  {
    n in t.nodes && IsItem(t.nodes[n])
  }

  ghost predicate AllCarry(t: Tree)
  {
    t.Valid() && forall n :: n in t.nodes ==> Carries(t, n)
  }

  /** The evidence shows the type, the identifier and the signature of every node. */
  ghost predicate Shows(t: Tree, signature: Node -> string, side: Side)
  {
    side.Keys == t.nodes.Keys && (forall n :: n in t.nodes ==> Carries(t, n)) &&
    forall n :: n in side ==>
      side[n].nodeType == t.nodes[n].nodeType && side[n].signature == signature(t.nodes[n]) &&
      side[n].persistentId == Some(t.nodes[n].identity["id"].s)
  }

  lemma EvidenceShows(t: Tree, signature: Node -> string)
    requires AllCarry(t)
    ensures Shows(t, signature, SideOf(t, signature))
  {
    ValidResolves(t);
    forall n | n in t.nodes
      ensures PersistentIdOf(t.nodes[n]) == Some(t.nodes[n].identity["id"].s)
    {
      assert Carries(t, n);
      ItemId(t.nodes[n]);
    }
  }

  /** Points for the same identifier and for the same content. */
  function Points(n: Node, m: Node): real
    requires "id" in n.identity && "id" in m.identity
  {
    (if n.identity["id"] == m.identity["id"] then 0.5 else 0.0) + (if n.content == m.content then 0.5 else 0.0)
  }

  /** Types, identifiers and content decide the similarity of two such nodes. */
  lemma PointsScore(x: MatchInput, source: Tree, target: Tree, s: NodeRef, t: NodeRef)
    requires Shows(source, Rendered, x.ev.source) && Shows(target, Rendered, x.ev.target) && x.profile == TWO_SIGNALS
    requires s in source.nodes && t in target.nodes
    requires source.nodes[s].nodeType == target.nodes[t].nodeType
    ensures Carries(source, s) && Carries(target, t)
    ensures x.PairScore(s, t).value == Points(source.nodes[s], target.nodes[t])
  {
    assert Carries(source, s) && Carries(target, t);
    TwoSignalScore(x.ev.source[s], x.ev.target[t]);
    var n, m := source.nodes[s], target.nodes[t];
    RenderedTellsApart(n, m);
    assert n.identity["id"] == m.identity["id"] <==> n.identity["id"].s == m.identity["id"].s;
  }

  lemma ClashIsType(x: MatchInput, s: NodeRef, t: NodeRef)
    requires x.profile.hardNodeType && s in x.ev.source && t in x.ev.target
    ensures x.Clash(s, t) <==> x.ev.source[s].nodeType != x.ev.target[t].nodeType
  {
  }

  lemma AllAreFree(x: MatchInput)
    requires PersistentId !in x.profile.authoritative
    ensures x.FreeSources() == x.ev.source.Keys && x.FreeTargets() == x.ev.target.Keys
  {
  }

  lemma ItemPoints(a: string, p: Option<NodeRef>, cs: seq<NodeRef>, id: string, text: string,
                   b: string, q: Option<NodeRef>, ds: seq<NodeRef>, id2: string, text2: string)
    ensures Points(Item(a, p, cs, id, text), Item(b, q, ds, id2, text2)) ==
      (if id == id2 then 0.5 else 0.0) + (if text == text2 then 0.5 else 0.0)
  {
    assert map["id" := VStr(id)]["id"] == VStr(id);
    assert map["text" := VStr(text)]["text"] == VStr(text) && map["text" := VStr(text2)]["text"] == VStr(text2);
  }

  /** `c` is the similarity contest of two trees of items. */
  ghost predicate ItemContest(c: Contest, source: Tree, target: Tree)
  {
    c.sources == source.nodes.Keys && c.targets == target.nodes.Keys &&
    c.probable == 0.4 && c.threshold == 0.5 && c.margin == 0.05 &&
    (forall s, t :: s in c.sources && t in c.targets ==> Carries(source, s) && Carries(target, t)) &&
    (forall s, t :: s in c.sources && t in c.targets ==>
      (c.admissible(s, t) <==> source.nodes[s].nodeType == target.nodes[t].nodeType)) &&
    forall s, t | s in c.sources && t in c.targets && c.admissible(s, t) ::
      c.value(s, t) == Points(source.nodes[s], target.nodes[t])
  }

  lemma IsItemContest(source: Tree, target: Tree)
    requires AllCarry(source) && AllCarry(target)
    ensures ItemContest(MatchInput(IndexOf(source, target, Rendered), TWO_SIGNALS).Phase2(), source, target)
  {
    var x := MatchInput(IndexOf(source, target, Rendered), TWO_SIGNALS);
    EvidenceShows(source, Rendered);
    EvidenceShows(target, Rendered);
    AllAreFree(x);
    forall s, t | s in source.nodes && t in target.nodes
      ensures Carries(source, s) && Carries(target, t)
      ensures !x.Clash(s, t) <==> source.nodes[s].nodeType == target.nodes[t].nodeType
      ensures source.nodes[s].nodeType == target.nodes[t].nodeType ==>
        x.PairScore(s, t).value == Points(source.nodes[s], target.nodes[t])
    {
      ClashIsType(x, s, t);
      if source.nodes[s].nodeType == target.nodes[t].nodeType { PointsScore(x, source, target, s, t); }
    }
  }

  /** No arrow fits into a handle of one character. */
  ghost predicate Terse(t: Tree)
  {
    AllCarry(t) && forall n :: n in t.nodes ==> |n| == 1
  }

  lemma ItemsAreSmooth(source: Tree, target: Tree)
    requires Terse(source) && AllCarry(target)
    ensures Smooth(source, target, TWO_SIGNALS)
  {
    SignalWeights();
  }

  /** The engine on two trees of items under two signals. */
  method CompareItems(source: Tree, target: Tree) returns (r: Reconciled, ghost z: Reconciliation)
    requires Terse(source) && AllCarry(target)
    ensures Ran(source, target, TWO_SIGNALS, Rendered, r, z) && ItemContest(z.input.Phase2(), source, target)
  {
    ItemsAreSmooth(source, target);
    ghost var fired;
    r, z, fired := RunEngine(source, target, TWO_SIGNALS, [], Rendered);
    IsItemContest(source, target);
  }

  /** Trees of at most three levels. */
  lemma ShallowIsValid(t: Tree)
    requires t.Constructed() && t.LinksAgree()
    requires forall n :: n in t.nodes && n != t.root ==>
      t.nodes[n].parent.Some? && t.nodes[n].parent.value in t.nodes &&
      (t.nodes[n].parent == Some(t.root) || t.nodes[t.nodes[n].parent.value].parent == Some(t.root))
    ensures t.Valid()
  {
    forall n | n in t.nodes
      ensures t.Anchored(n)
    {
      if n == t.root {
        assert t.Up(n, 0) == Some(t.root);
      } else if t.nodes[n].parent == Some(t.root) {
        assert t.Up(t.root, 0) == Some(t.root);
        assert t.Up(n, 1) == Some(t.root);
      } else {
        var p := t.nodes[n].parent.value;
        assert t.Up(t.root, 0) == Some(t.root);
        assert t.Up(p, 1) == Some(t.root);
        assert t.Up(n, 2) == Some(t.root);
      }
    }
  }

  // ---------------------------------------------------------------- a perfect match that is deleted

  /** `b` agrees with `x` in both signals; `a` agrees with `x` and with `y` in one each. */
  const WITHHELD_SOURCE := Tree("R", map[
    "R" := Item("list", None, ["a", "b"], "r", ""),
    "a" := Item("item", Some("R"), [], "v", "p"),
    "b" := Item("item", Some("R"), [], "u", "p")])

  const WITHHELD_TARGET := Tree("Q", map[
    "Q" := Item("list", None, ["x", "y"], "r", ""),
    "x" := Item("item", Some("Q"), [], "u", "p"),
    "y" := Item("item", Some("Q"), [], "v", "q")])

  ghost predicate Itemized(t: Tree)
  {
    forall n :: n in t.nodes ==> Carries(t, n)
  }

  /** A root and its leaves. */
  ghost predicate Flat(t: Tree)
  {
    t.root in t.nodes && t.nodes[t.root].parent == None &&
    Distinct(t.nodes[t.root].children) && t.root !in t.nodes[t.root].children &&
    (forall n :: n in t.nodes <==> n == t.root || n in t.nodes[t.root].children) &&
    forall n :: n in t.nodes && n != t.root ==> t.nodes[n].parent == Some(t.root) && t.nodes[n].children == []
  }

  lemma FlatCarries(t: Tree)
    requires Flat(t) && Itemized(t)
    ensures AllCarry(t)
  {
    forall n | n in t.nodes
      ensures t.LinksAt(n)
    {
    }
    ShallowIsValid(t);
  }

  /** A root and its children, of which `p` alone has leaves below it. */
  ghost predicate Nested(t: Tree, p: NodeRef)
  {
    t.root in t.nodes && t.nodes[t.root].parent == None && p in t.nodes && p in t.nodes[t.root].children &&
    Distinct(t.nodes[t.root].children) && Distinct(t.nodes[p].children) &&
    (forall n :: n in t.nodes <==> n == t.root || n in t.nodes[t.root].children || n in t.nodes[p].children) &&
    (forall n :: n in t.nodes[t.root].children ==> n != t.root && n in t.nodes && t.nodes[n].parent == Some(t.root)) &&
    (forall n :: n in t.nodes[p].children ==> n != t.root && n in t.nodes && t.nodes[n].parent == Some(p)) &&
    forall n :: n in t.nodes && n != t.root && n != p ==> t.nodes[n].children == []
  }

  lemma NestedCarries(t: Tree, p: NodeRef)
    requires Nested(t, p) && Itemized(t)
    ensures AllCarry(t)
  {
    forall n | n in t.nodes
      ensures t.LinksAt(n)
    {
    }
    ShallowIsValid(t);
  }

  lemma WithheldSourceShape()
    ensures Flat(WITHHELD_SOURCE)
  {
  }

  lemma WithheldSourceItems()
    ensures Itemized(WITHHELD_SOURCE)
  {
  }

  lemma WithheldSourceCarries()
    ensures Terse(WITHHELD_SOURCE)
  {
    WithheldSourceShape();
    WithheldSourceItems();
    FlatCarries(WITHHELD_SOURCE);
  }

  lemma WithheldTargetShape()
    ensures Flat(WITHHELD_TARGET)
  {
  }

  lemma WithheldTargetItems()
    ensures Itemized(WITHHELD_TARGET)
  {
  }

  lemma WithheldTargetCarries()
    ensures AllCarry(WITHHELD_TARGET)
  {
    WithheldTargetShape();
    WithheldTargetItems();
    FlatCarries(WITHHELD_TARGET);
  }

  lemma WithheldScores(c: Contest)
    requires ItemContest(c, WITHHELD_SOURCE, WITHHELD_TARGET)
    ensures c.sources == {"R", "a", "b"} && c.targets == {"Q", "x", "y"} && c.Valid()
    ensures forall s, t :: c.Plausible(s, t) <==> (s, t) in {("R", "Q"), ("a", "x"), ("a", "y"), ("b", "x")}
    ensures c.value("a", "x") == c.value("a", "y") == 0.5 && c.value("b", "x") == 1.0
  {
    ItemPoints("item", Some("R"), [], "v", "p", "item", Some("Q"), [], "u", "p");
    ItemPoints("item", Some("R"), [], "v", "p", "item", Some("Q"), [], "v", "q");
    ItemPoints("item", Some("R"), [], "u", "p", "item", Some("Q"), [], "u", "p");
    ItemPoints("item", Some("R"), [], "u", "p", "item", Some("Q"), [], "v", "q");
    ItemPoints("list", None, ["a", "b"], "r", "", "list", None, ["x", "y"], "r", "");
    assert c.admissible("a", "x") && c.admissible("a", "y") && c.admissible("b", "x") && c.admissible("b", "y") &&
      c.admissible("R", "Q");
  }

  /** The pair of `b` and `x` scores 1.0 and is neither confirmed nor held as ambiguous. */
  lemma PerfectMatchWithheld(c: Contest)
    requires ItemContest(c, WITHHELD_SOURCE, WITHHELD_TARGET)
    ensures c.value("b", "x") == 1.0 && c.Viable("b") && !c.Reported("b")
  {
    WithheldScores(c);
    assert c.AtBest("b", "x") && c.AtBest("a", "x");
    assert c.Near("b", "x") && c.Near("a", "x") && c.Near("a", "y");
    assert c.SoleNear("b", "x") && !c.SoleNear("a", "x");
    assert forall u :: c.Contends(u, "x") ==> u in {"a", "b"};
    assert Vetoed(c, "b", "x");
    SilentSources(c, "b");
  }

  ghost predicate UnderRoot(t: Tree, n: NodeRef)
  {
    n in t.nodes && n != t.root && t.nodes[n].parent == Some(t.root)
  }

  ghost predicate Contains(ops: seq<StructuralOperation>, id: OperationId)
  {
    exists op :: op in ops && op.id == id
  }

  lemma WithheldOutcome(r: Reconciled, z: Reconciliation)
    requires Ran(WITHHELD_SOURCE, WITHHELD_TARGET, TWO_SIGNALS, Rendered, r, z)
    requires ItemContest(z.input.Phase2(), WITHHELD_SOURCE, WITHHELD_TARGET)
    ensures Contains(r.operations, DeleteId("b")) && z.input.PairScore("b", "x").value == 1.0
  {
    PerfectMatchWithheld(z.input.Phase2());
    assert UnderRoot(WITHHELD_SOURCE, "b");
    SilentChildIsDeleted(z, "b");
  }

  /** The engine reports `b` as deleted although it agrees with `x` in every signal. */
  method PerfectMatchIsDeleted() returns (r: Reconciled)
    ensures r.Complete? && Contains(r.operations, DeleteId("b"))
    ensures var x := MatchInput(IndexOf(WITHHELD_SOURCE, WITHHELD_TARGET, Rendered), TWO_SIGNALS);
      x.PairScore("b", "x").value == 1.0
  {
    WithheldSourceCarries();
    WithheldTargetCarries();
    ghost var z;
    r, z := CompareItems(WITHHELD_SOURCE, WITHHELD_TARGET);
    WithheldOutcome(r, z);
  }

  // ---------------------------------------------------------------- handles that decide a deletion

  /** `a` agrees with either target in one signal, `b` with the first and `c` with the second. */
  const TIED_SOURCE := Tree("R", map[
    "R" := Item("list", None, ["a", "b", "c"], "r", ""),
    "a" := Item("item", Some("R"), [], "v", "p"),
    "b" := Item("item", Some("R"), [], "w", "p"),
    "c" := Item("item", Some("R"), [], "v", "r")])

  function TiedTarget(h: NodeRef, k: NodeRef): Tree
  {
    Tree("Q", map[
      "Q" := Item("list", None, [h, k], "r", ""),
      h := Item("item", Some("Q"), [], "u", "p"),
      k := Item("item", Some("Q"), [], "v", "q")])
  }

  lemma TiedTargetCarries(h: NodeRef, k: NodeRef)
    requires h != k && h != "Q" && k != "Q"
    ensures AllCarry(TiedTarget(h, k))
  {
    var t := TiedTarget(h, k);
    assert t.nodes.Keys == {"Q", h, k};
    assert t.nodes["Q"].children == [h, k];
    FlatCarries(t);
  }

  lemma TiedSourceItems()
    ensures Itemized(TIED_SOURCE)
  {
    ItemIsItem("list", None, ["a", "b", "c"], "r", "");
    ItemIsItem("item", Some("R"), [], "v", "p");
    ItemIsItem("item", Some("R"), [], "w", "p");
    ItemIsItem("item", Some("R"), [], "v", "r");
  }

  lemma TiedSourceShape()
    ensures Flat(TIED_SOURCE)
  {
  }

  lemma TiedSourceCarries()
    ensures Terse(TIED_SOURCE)
  {
    TiedSourceShape();
    TiedSourceItems();
    FlatCarries(TIED_SOURCE);
  }

  lemma TiedScores(c: Contest, h: NodeRef, k: NodeRef)
    requires h != k && h != "Q" && k != "Q" && ItemContest(c, TIED_SOURCE, TiedTarget(h, k))
    ensures c.sources == {"R", "a", "b", "c"} && c.targets == {"Q", h, k} && c.Valid()
    ensures forall s, t :: c.Plausible(s, t) <==> (s, t) in {("R", "Q"), ("a", h), ("a", k), ("b", h), ("c", k)}
    ensures c.value("a", h) == c.value("a", k) == c.value("b", h) == c.value("c", k) == 0.5
  {
    ItemPoints("item", Some("R"), [], "v", "p", "item", Some("Q"), [], "u", "p");
    ItemPoints("item", Some("R"), [], "v", "p", "item", Some("Q"), [], "v", "q");
    ItemPoints("item", Some("R"), [], "w", "p", "item", Some("Q"), [], "u", "p");
    ItemPoints("item", Some("R"), [], "w", "p", "item", Some("Q"), [], "v", "q");
    ItemPoints("item", Some("R"), [], "v", "r", "item", Some("Q"), [], "u", "p");
    ItemPoints("item", Some("R"), [], "v", "r", "item", Some("Q"), [], "v", "q");
    ItemPoints("list", None, ["a", "b", "c"], "r", "", "list", None, [h, k], "r", "");
    assert c.admissible("a", h) && c.admissible("a", k) && c.admissible("b", h) && c.admissible("b", k);
    assert c.admissible("c", h) && c.admissible("c", k) && c.admissible("R", "Q");
  }

  /** `a` ties on the targets `h` and `k`; `b` has only `h` and `e` only `k`. */
  ghost predicate TiedShape(c: Contest, b: NodeRef, e: NodeRef, h: NodeRef, k: NodeRef)
  {
    c.Valid() && c.threshold == 0.5 && c.margin == 0.05 && h != k && "a" !in {b, e} && b != e &&
    (forall s, t :: c.Plausible(s, t) && t in {h, k} <==> (s, t) in {("a", h), ("a", k), (b, h), (e, k)}) &&
    (forall s, t :: c.Plausible(s, t) && s in {"a", b, e} <==> (s, t) in {("a", h), ("a", k), (b, h), (e, k)}) &&
    c.value("a", h) == c.value("a", k) == c.value(b, h) == c.value(e, k) == 0.5
  }

  /** Whether the edge of `b` exists depends on the order of the two targets alone. */
  lemma TiedEdge(c: Contest, b: NodeRef, e: NodeRef, h: NodeRef, k: NodeRef)
    requires TiedShape(c, b, e, h, k)
    ensures c.SoleNear(b, h) && Fragile(c, b, h)
    ensures c.Edge(b, h) <==> Below(h, k)
  {
    BelowTotal(h, k);
    assert c.AtBest("a", h) && c.AtBest("a", k) && c.AtBest(b, h);
    assert c.Near(b, h) && c.SoleNear(b, h);
    assert Tied(c, "a", h) && Fixed(c, b, h) && Rivals(c, "a", b, h);
    assert forall u :: c.AtBest(u, h) ==> u in {"a", b};
    assert c.TopPick("a", h) <==> Below(h, k);
    assert CanRival(c, "a", b, h);
    SoleEdge(c, b, h);
    if Below(h, k) { assert c.Contends("a", h); }
  }

  /** The one target of `b` is never free to confirm, since `a` holds it in an ambiguity. */
  lemma TiedIsSilent(c: Contest, b: NodeRef, e: NodeRef, h: NodeRef, k: NodeRef)
    requires TiedShape(c, b, e, h, k)
    ensures c.Viable(b) && (c.Reported(b) <==> Below(h, k)) && (c.Reported(b) <==> c.Edge(b, h))
  {
    TiedEdge(c, b, e, h, k);
    assert c.AtBest("a", h) && c.Near("a", h) && c.Near("a", k);
    assert c.SourceEdge("a", h) && c.Edge("a", h);
    forall t
      ensures !c.Wins(b, t)
      ensures c.Edge(b, t) ==> t == h
    {
      if c.Edge(b, t) { assert c.Plausible(b, t); }
    }
  }

  lemma TiedFate(z: Reconciliation, b: NodeRef, e: NodeRef, h: NodeRef, k: NodeRef)
    requires z.Produced() && Delete in z.run.profile.enabled && z.run.profile.presence == SuppressAmbiguousNodes
    requires TiedShape(z.input.Phase2(), b, e, h, k)
    requires UnderRoot(z.run.x.source, b)
    ensures z.run.Emits(DeleteId(b)) <==> !Below(h, k)
  {
    TiedIsSilent(z.input.Phase2(), b, e, h, k);
    if z.input.Phase2().Reported(b) { EdgeIsNotDeleted(z, b, h); } else { SilentChildIsDeleted(z, b); }
  }

  lemma TiedContest(c: Contest, h: NodeRef, k: NodeRef)
    requires h != k && h != "Q" && k != "Q" && ItemContest(c, TIED_SOURCE, TiedTarget(h, k))
    ensures TiedShape(c, "b", "c", h, k) && TiedShape(c, "c", "b", k, h)
  {
    TiedScores(c, h, k);
  }

  lemma EdgeIffAmbiguous(x: MatchInput, s: NodeRef, t: NodeRef)
    requires PersistentId !in x.profile.authoritative
    ensures x.Verdict(s, t) == Some(Ambiguous) <==> x.Phase2().Edge(s, t)
  {
  }

  /** Which of two pairs is kept as ambiguous depends on the order of the target handles alone. */
  lemma EdgesDependOnHandles(h: NodeRef, k: NodeRef)
    requires h != k && h != "Q" && k != "Q"
    ensures var x := MatchInput(IndexOf(TIED_SOURCE, TiedTarget(h, k), Rendered), TWO_SIGNALS);
      (x.Verdict("b", h) == Some(Ambiguous) <==> Below(h, k)) &&
      (x.Verdict("c", k) == Some(Ambiguous) <==> Below(k, h)) &&
      Fragile(x.Phase2(), "b", h) && Fragile(x.Phase2(), "c", k)
  {
    var x := MatchInput(IndexOf(TIED_SOURCE, TiedTarget(h, k), Rendered), TWO_SIGNALS);
    TiedSourceCarries();
    TiedTargetCarries(h, k);
    IsItemContest(TIED_SOURCE, TiedTarget(h, k));
    TiedContest(x.Phase2(), h, k);
    TiedEdge(x.Phase2(), "b", "c", h, k);
    TiedEdge(x.Phase2(), "c", "b", k, h);
    EdgeIffAmbiguous(x, "b", h);
    EdgeIffAmbiguous(x, "c", k);
  }

  lemma TiedKids()
    ensures UnderRoot(TIED_SOURCE, "b") && UnderRoot(TIED_SOURCE, "c")
  {
  }

  lemma TiedOutcome(h: NodeRef, k: NodeRef, r: Reconciled, z: Reconciliation)
    requires h != k && h != "Q" && k != "Q"
    requires Ran(TIED_SOURCE, TiedTarget(h, k), TWO_SIGNALS, Rendered, r, z)
    requires ItemContest(z.input.Phase2(), TIED_SOURCE, TiedTarget(h, k))
    ensures Contains(r.operations, DeleteId("b")) <==> Below(k, h)
    ensures Contains(r.operations, DeleteId("c")) <==> Below(h, k)
  {
    TiedContest(z.input.Phase2(), h, k);
    TiedKids();
    TiedFate(z, "b", "c", h, k);
    TiedFate(z, "c", "b", k, h);
    BelowTotal(h, k);
  }

  /**
   * The order of two target handles decides which of two sources is reported as deleted and which one
   * is kept as ambiguous; nothing but the handles changes between `TieDecidesDeletion(h, k)` and
   * `TieDecidesDeletion(k, h)`.
   */
  method TieDecidesDeletion(h: NodeRef, k: NodeRef) returns (r: Reconciled)
    requires h != k && h != "Q" && k != "Q"
    ensures r.Complete?
    ensures Contains(r.operations, DeleteId("b")) <==> Below(k, h)
    ensures Contains(r.operations, DeleteId("c")) <==> Below(h, k)
  {
    TiedSourceCarries();
    TiedTargetCarries(h, k);
    ghost var z;
    r, z := CompareItems(TIED_SOURCE, TiedTarget(h, k));
    TiedOutcome(h, k, r, z);
  }

  // ---------------------------------------------------------------- a weak move

  /** `s` and `t` share the identifier but not the text, and their parents do not correspond. */
  const WEAK_SOURCE := Tree("R", map[
    "R" := Item("list", None, ["s"], "r", ""),
    "s" := Item("item", Some("R"), [], "k", "old")])

  const WEAK_TARGET := Tree("Q", map[
    "Q" := Item("list", None, ["p"], "r", ""),
    "p" := Item("group", Some("Q"), ["t"], "g", ""),
    "t" := Item("item", Some("p"), [], "k", "new")])

  lemma WeakSourceShape()
    ensures Flat(WEAK_SOURCE)
  {
  }

  lemma WeakSourceItems()
    ensures Itemized(WEAK_SOURCE)
  {
  }

  lemma WeakSourceCarries()
    ensures Terse(WEAK_SOURCE) && UnderRoot(WEAK_SOURCE, "s")
  {
    WeakSourceShape();
    WeakSourceItems();
    FlatCarries(WEAK_SOURCE);
  }

  lemma WeakTargetShape()
    ensures Nested(WEAK_TARGET, "p")
  {
  }

  lemma WeakTargetItems()
    ensures Itemized(WEAK_TARGET)
  {
  }

  lemma WeakTargetCarries()
    ensures AllCarry(WEAK_TARGET)
  {
    WeakTargetShape();
    WeakTargetItems();
    NestedCarries(WEAK_TARGET, "p");
  }

  lemma WeakScores(c: Contest)
    requires ItemContest(c, WEAK_SOURCE, WEAK_TARGET)
    ensures c.Valid() && (forall s, t :: c.Plausible(s, t) <==> (s, t) in {("R", "Q"), ("s", "t")})
    ensures c.value("s", "t") == 0.5 && c.threshold == 0.5
  {
    ItemPoints("item", Some("R"), [], "k", "old", "item", Some("p"), [], "k", "new");
    ItemPoints("list", None, ["s"], "r", "", "list", None, ["p"], "r", "");
    assert c.admissible("s", "t") && c.admissible("R", "Q");
  }

  /** What the shape of the two trees says about `s` and `t`. */
  ghost predicate WeakShape(r: Run)
  {
    UnderRoot(r.x.source, "s") && r.x.source.root == "R" && r.x.target.root == "Q" &&
    "t" in r.x.target.nodes && r.x.target.nodes["t"].parent == Some("p")
  }

  lemma WeakContest(c: Contest)
    requires ItemContest(c, WEAK_SOURCE, WEAK_TARGET)
    ensures c.Wins("s", "t") && c.value("s", "t") == 0.5 && forall sp :: !c.Plausible(sp, "p")
  {
    WeakScores(c);
    AloneIsSettled(c, "s", "t");
  }

  lemma WeakCrosses(z: Reconciliation)
    requires z.Produced() && z.run.profile.moveThreshold == 0.75 && PersistentId !in z.input.profile.authoritative
    requires z.input.Phase2().Wins("s", "t") && z.input.Phase2().value("s", "t") == 0.5
    requires WeakShape(z.run) && forall sp :: !z.input.Phase2().Plausible(sp, "p")
    ensures z.run.x.graph.Pairs("s", "t") && z.run.Crosses("s", "t") && !z.run.Confident("s", "t")
    ensures forall sp :: !z.run.x.Heads(sp, "p")
  {
    WinnerIsPaired(z, "s", "t");
    UnwantedHeadsNothing(z, "p");
  }

  lemma WeakFate(z: Reconciliation)
    requires z.Produced() && z.run.profile == DEFAULT_OPERATIONS && WeakShape(z.run)
    requires z.run.Crosses("s", "t") && !z.run.Confident("s", "t") && forall sp :: !z.run.x.Heads(sp, "p")
    ensures z.run.Emits(DeleteId("s")) && !z.run.Emits(InsertId("t")) && !z.run.Emits(MoveId("s", "t"))
  {
    ProducedIsSound(z);
    WeakMoveDegradesIff(z.run, "s", "t");
    MoveIff(z.run, "s", "t");
    assert z.run.x.Heads("R", "Q") && !Quiet(z.run, "R", "Q");
  }

  lemma WeakKids()
    ensures UnderRoot(WEAK_SOURCE, "s") && WEAK_SOURCE.root == "R" && WEAK_TARGET.root == "Q"
    ensures "t" in WEAK_TARGET.nodes && WEAK_TARGET.nodes["t"].parent == Some("p")
  {
  }

  lemma WeakOutcome(r: Reconciled, z: Reconciliation)
    requires Ran(WEAK_SOURCE, WEAK_TARGET, TWO_SIGNALS, Rendered, r, z)
    requires ItemContest(z.input.Phase2(), WEAK_SOURCE, WEAK_TARGET)
    ensures r.graph.Pairs("s", "t")
    ensures Contains(r.operations, DeleteId("s")) && !Contains(r.operations, InsertId("t"))
    ensures !Contains(r.operations, MoveId("s", "t"))
  {
    WeakKids();
    WeakContest(z.input.Phase2());
    WeakCrosses(z);
    WeakFate(z);
  }

  /** The localization service with nothing stale and nothing exempt. */
  function Plain(source: Tree, locale: Tree, r: Reconciled): Interpretation
    requires r.Complete?
  {
    Interpretation(source, locale, r.graph, r.alignment, r.operations, 0,
                   (a, b) => false, (kind, nodeType) => false, 0.75)
  }

  ghost predicate Mentions(issues: seq<Issue>, status: Status, s: NodeRef)
  {
    exists i :: i in issues && i.finding.status == status && i.finding.source == Some(s)
  }

  ghost predicate MentionsPair(issues: seq<Issue>, s: NodeRef, t: NodeRef)
  {
    exists i :: i in issues && i.finding.source == Some(s) && i.finding.locale == Some(t)
  }

  lemma FindingIsNumbered(fs: seq<Localization.Finding>, f: Localization.Finding)
    requires f in fs
    ensures exists i :: i in Numbered(fs) && i.finding == f
  {
    var k :| 0 <= k < |fs| && fs[k] == f;
    assert Numbered(fs)[k] in Numbered(fs);
  }

  lemma IssuesOfRun(x: Interpretation, z: Reconciliation, moves: MoveIndex, refs: seq<NodeRef>, s: NodeRef, t: NodeRef)
    requires z.Produced() && Of(x, z.run) && z.run.profile.presence != EmitAll
    requires z.run.Emits(DeleteId(s)) && !x.exempt(Delete, TypeOf(x.source, s))
    requires z.run.x.graph.Pairs(s, t) && s in z.run.x.source.nodes && z.run.x.source.nodes[s].parent.Some?
    ensures var raw := Numbered(RawFindings(x, moves, refs));
      Mentions(Kept(x, raw, |raw|), MissingInLocale, s) && MentionsPair(Kept(x, raw, |raw|), s, t)
  {
    ProducedIsSound(z);
    BarrierIsRedundant(x, z, moves, refs);
    MissingIff(x, z.run, moves, refs, s);
    PairIsReported(x, moves, z.run, s, t);
    var fs := RawFindings(x, moves, refs);
    var f :| f in fs && f.status == MissingInLocale && f.source == Some(s) && f.locale == None;
    FindingIsNumbered(fs, f);
    var g :| g in ConfirmedPart(x, moves) && g.source == Some(s) && g.locale == Some(t);
    FindingIsNumbered(fs, g);
  }

  lemma PlainIsOf(source: Tree, target: Tree, matching: MatchingProfile, signature: Node -> string, r: Reconciled,
                  z: Reconciliation)
    requires Ran(source, target, matching, signature, r, z)
    ensures Of(Plain(source, target, r), z.run)
  {
  }

  lemma PlainIssues(source: Tree, target: Tree, matching: MatchingProfile, signature: Node -> string, r: Reconciled,
                    z: Reconciliation, moves: MoveIndex, refs: seq<NodeRef>, s: NodeRef, t: NodeRef)
    requires Ran(source, target, matching, signature, r, z) && UnderRoot(source, s)
    requires r.graph.Pairs(s, t) && Contains(r.operations, DeleteId(s))
    ensures var x := Plain(source, target, r);
      var raw := Numbered(RawFindings(x, moves, refs));
      Mentions(Kept(x, raw, |raw|), MissingInLocale, s) && MentionsPair(Kept(x, raw, |raw|), s, t)
  {
    PlainIsOf(source, target, matching, signature, r, z);
    IssuesOfRun(Plain(source, target, r), z, moves, refs, s, t);
  }

  /**
   * A below-threshold move becomes half of the documented DELETE and INSERT: `t` is not reported at
   * all, and `s` is listed both as corresponding to `t` and as missing.
   */
  method WeakMoveIsPairedAndMissing() returns (r: Reconciled, issues: seq<Issue>)
    ensures r.Complete? && r.graph.Pairs("s", "t")
    ensures Contains(r.operations, DeleteId("s")) && !Contains(r.operations, InsertId("t"))
    ensures !Contains(r.operations, MoveId("s", "t"))
    ensures Mentions(issues, MissingInLocale, "s") && MentionsPair(issues, "s", "t")
  {
    WeakSourceCarries();
    WeakTargetCarries();
    ghost var z;
    r, z := CompareItems(WEAK_SOURCE, WEAK_TARGET);
    WeakOutcome(r, z);
    ghost var moves, refs;
    issues, moves, refs := Interpret(Plain(WEAK_SOURCE, WEAK_TARGET, r));
    WeakKids();
    PlainIssues(WEAK_SOURCE, WEAK_TARGET, TWO_SIGNALS, Rendered, r, z, moves, refs, "s", "t");
  }

  // ---------------------------------------------------------------- an unsettled root

  /** The source root has the identifier of `p`, a child of the target root. */
  const UNSETTLED_SOURCE := Tree("R", map[
    "R" := Item("item", None, ["s", "u"], "r", ""),
    "s" := Item("leaf", Some("R"), [], "c", ""),
    "u" := Item("leaf", Some("R"), [], "d", "")])

  const UNSETTLED_TARGET := Tree("Q", map[
    "Q" := Item("item", None, ["p", "w"], "q", ""),
    "p" := Item("item", Some("Q"), ["t"], "r", ""),
    "t" := Item("leaf", Some("p"), [], "c", ""),
    "w" := Item("leaf", Some("Q"), [], "d", "")])

  lemma UnsettledSourceShape()
    ensures Flat(UNSETTLED_SOURCE)
  {
  }

  lemma UnsettledSourceItems()
    ensures Itemized(UNSETTLED_SOURCE)
  {
  }

  lemma UnsettledSourceCarries()
    ensures Terse(UNSETTLED_SOURCE)
  {
    UnsettledSourceShape();
    UnsettledSourceItems();
    FlatCarries(UNSETTLED_SOURCE);
  }

  lemma UnsettledSourceUnique()
    ensures ItemIdsUnique(UNSETTLED_SOURCE)
  {
    UnsettledSourceItems();
    UniqueByOwner(UNSETTLED_SOURCE, map["r" := "R", "c" := "s", "d" := "u"]);
  }

  lemma UnsettledTargetShape()
    ensures Nested(UNSETTLED_TARGET, "p")
  {
  }

  lemma UnsettledTargetItems()
    ensures Itemized(UNSETTLED_TARGET)
  {
  }

  lemma UnsettledTargetCarries()
    ensures AllCarry(UNSETTLED_TARGET)
  {
    UnsettledTargetShape();
    UnsettledTargetItems();
    NestedCarries(UNSETTLED_TARGET, "p");
  }

  lemma UnsettledTargetUnique()
    ensures ItemIdsUnique(UNSETTLED_TARGET)
  {
    UnsettledTargetItems();
    UniqueByOwner(UNSETTLED_TARGET, map["q" := "Q", "r" := "p", "c" := "t", "d" := "w"]);
  }

  lemma UniqueByOwner(t: Tree, owner: map<string, NodeRef>)
    requires Itemized(t)
    requires forall n :: n in t.nodes ==> IdOf(t.nodes[n]) in owner && owner[IdOf(t.nodes[n])] == n
    ensures ItemIdsUnique(t)
  {
    forall n | n in t.nodes
      ensures IdOf(t.nodes[n]) == t.nodes[n].identity["id"].s
    {
      assert Carries(t, n);
    }
  }

  function IdOf(n: Node): string
  {
    if "id" in n.identity && n.identity["id"].VStr? then n.identity["id"].s else ""
  }

  ghost predicate ItemIdsUnique(t: Tree)
  {
    (forall n :: n in t.nodes ==> Carries(t, n)) &&
    forall n, m :: n in t.nodes && m in t.nodes && t.nodes[n].identity["id"].s == t.nodes[m].identity["id"].s ==> n == m
  }

  ghost predicate SameItem(source: Tree, target: Tree, s: NodeRef, t: NodeRef)
  {
    Carries(source, s) && Carries(target, t) && source.nodes[s].identity["id"].s == target.nodes[t].identity["id"].s &&
    source.nodes[s].nodeType == target.nodes[t].nodeType
  }

  lemma ShownIsHolder(t: Tree, signature: Node -> string, side: Side, n: NodeRef)
    requires Shows(t, signature, side) && ItemIdsUnique(t) && n in t.nodes
    ensures Holder(side, DuplicatesOf(side), n)
  {
  }

  lemma SameItemIsConfirmed(x: MatchInput, source: Tree, target: Tree, signature: Node -> string, s: NodeRef,
                            t: NodeRef)
    requires Shows(source, signature, x.ev.source) && Shows(target, signature, x.ev.target)
    requires PersistentId in x.profile.authoritative && x.profile.hardNodeType
    requires x.ev.duplicateSourceIds == DuplicatesOf(x.ev.source)
    requires x.ev.duplicateTargetIds == DuplicatesOf(x.ev.target)
    requires ItemIdsUnique(source) && ItemIdsUnique(target) && SameItem(source, target, s, t)
    ensures x.AuthConfirmed(s, t)
  {
    ShownIsHolder(source, signature, x.ev.source, s);
    ShownIsHolder(target, signature, x.ev.target, t);
    ClashIsType(x, s, t);
  }

  ghost predicate SameItemsPaired(source: Tree, target: Tree, r: Reconciled)
    requires r.Complete?
  {
    forall s, t :: SameItem(source, target, s, t) ==> r.graph.Pairs(s, t)
  }

  /** The engine on two trees of items under authoritative identifiers. */
  method CompareById(source: Tree, target: Tree, rules: seq<SuppressionRule>, signature: Node -> string)
    returns (r: Reconciled, ghost z: Reconciliation, ghost fired: seq<Firing>)
    requires Terse(source) && AllCarry(target) && ItemIdsUnique(source) && ItemIdsUnique(target)
    requires RulesEnabled(rules)
    ensures Ran(source, target, BY_ID, signature, r, z) && Over(z.run, rules).IsSuppression(r.suppression, fired)
    ensures SameItemsPaired(source, target, r)
  {
    IdsAreSmooth(source, target);
    r, z, fired := RunEngine(source, target, BY_ID, rules, signature);
    SameItemsArePaired(source, target, signature, r, z);
  }

  lemma IdsAreSmooth(source: Tree, target: Tree)
    requires Terse(source) && AllCarry(target)
    ensures Smooth(source, target, BY_ID)
  {
    SignalWeights();
  }

  lemma SameItemsArePaired(source: Tree, target: Tree, signature: Node -> string, r: Reconciled, z: Reconciliation)
    requires AllCarry(source) && AllCarry(target) && ItemIdsUnique(source) && ItemIdsUnique(target)
    requires Ran(source, target, BY_ID, signature, r, z)
    ensures SameItemsPaired(source, target, r)
  {
    EvidenceShows(source, signature);
    EvidenceShows(target, signature);
    forall s, t | SameItem(source, target, s, t)
      ensures r.graph.Pairs(s, t)
    {
      SameItemIsConfirmed(z.input, source, target, signature, s, t);
      CandidateAt(z.input, r.graph, s, t);
    }
  }

  /** What the shape of the two trees and their pairs say. */
  ghost predicate UnsettledShape(r: Run)
  {
    var source, target, g := r.x.source, r.x.target, r.x.graph;
    UnderRoot(source, "s") && UnderRoot(source, "u") && "w" in target.nodes && "t" in target.nodes &&
    target.root != "p" &&
    target.nodes["w"].parent == Some(target.root) && target.nodes["t"].parent == Some("p") &&
    g.Pairs(source.root, "p") && g.Pairs("s", "t") && g.Pairs("u", "w")
  }

  lemma UnsettledFate(r: Run)
    requires r.Sound() && r.profile.AllEnabled() && r.profile.presence == SuppressAmbiguousNodes && UnsettledShape(r)
    ensures (r.Emits(MatchedId("s", "t")) || r.Emits(UpdateId("s", "t"))) && r.Emits(DeleteId("s"))
    ensures (r.Emits(MatchedId("u", "w")) || r.Emits(UpdateId("u", "w"))) && r.Emits(DeleteId("u"))
  {
    assert r.x.Heads(r.x.source.root, "p") && r.x.Heads(r.x.source.root, r.x.target.root);
    InPlaceAndDeleted(r, "s", "t", "p");
    InPlaceAndDeleted(r, "u", "w", "p");
  }

  lemma InPlaceAndDeleted(r: Run, s: NodeRef, t: NodeRef, p: NodeRef)
    requires r.Sound() && r.profile.AllEnabled() && r.profile.presence == SuppressAmbiguousNodes && r.Stays(s, t)
    requires r.x.source.nodes[s].parent == Some(r.x.source.root) && SecondHead(r, t, p)
    ensures (r.Emits(MatchedId(s, t)) || r.Emits(UpdateId(s, t))) && r.Emits(DeleteId(s))
  {
    UnsettledRootContradictsIff(r, s, t);
  }

  lemma UnsettledKids()
    ensures UnderRoot(UNSETTLED_SOURCE, "s") && UnderRoot(UNSETTLED_SOURCE, "u") && UNSETTLED_TARGET.root != "p"
    ensures "w" in UNSETTLED_TARGET.nodes && UNSETTLED_TARGET.nodes["w"].parent == Some(UNSETTLED_TARGET.root)
    ensures "t" in UNSETTLED_TARGET.nodes && UNSETTLED_TARGET.nodes["t"].parent == Some("p")
    ensures SameItem(UNSETTLED_SOURCE, UNSETTLED_TARGET, UNSETTLED_SOURCE.root, "p")
    ensures SameItem(UNSETTLED_SOURCE, UNSETTLED_TARGET, "s", "t")
    ensures SameItem(UNSETTLED_SOURCE, UNSETTLED_TARGET, "u", "w")
  {
  }

  lemma UnsettledOutcome(signature: Node -> string, r: Reconciled, z: Reconciliation)
    requires Ran(UNSETTLED_SOURCE, UNSETTLED_TARGET, BY_ID, signature, r, z)
    requires SameItemsPaired(UNSETTLED_SOURCE, UNSETTLED_TARGET, r)
    ensures Contains(r.operations, DeleteId("s"))
    ensures Contains(r.operations, MatchedId("s", "t")) || Contains(r.operations, UpdateId("s", "t"))
    ensures Contains(r.operations, DeleteId("u"))
    ensures Contains(r.operations, MatchedId("u", "w")) || Contains(r.operations, UpdateId("u", "w"))
  {
    UnsettledKids();
    ProducedIsSound(z);
    UnsettledFate(z.run);
  }

  /**
   * Both the child that kept its place under the roots and the one below `p` are reported as matched and
   * as deleted.
   */
  method MatchedIsDeleted(signature: Node -> string) returns (r: Reconciled)
    ensures r.Complete?
    ensures Contains(r.operations, DeleteId("s"))
    ensures Contains(r.operations, MatchedId("s", "t")) || Contains(r.operations, UpdateId("s", "t"))
    ensures Contains(r.operations, DeleteId("u"))
    ensures Contains(r.operations, MatchedId("u", "w")) || Contains(r.operations, UpdateId("u", "w"))
  {
    UnsettledSourceCarries();
    UnsettledSourceUnique();
    UnsettledTargetCarries();
    UnsettledTargetUnique();
    ghost var z, fired;
    r, z, fired := CompareById(UNSETTLED_SOURCE, UNSETTLED_TARGET, [], signature);
    UnsettledOutcome(signature, r, z);
  }

  // ---------------------------------------------------------------- a reorder that hides grandchildren

  /** The children of the root change places; the child of the first one keeps its parent. */
  const SWAPPED_SOURCE := Tree("R", map[
    "R" := Item("list", None, ["a", "b"], "r", ""),
    "a" := Item("item", Some("R"), ["c"], "1", ""),
    "b" := Item("item", Some("R"), [], "2", ""),
    "c" := Item("leaf", Some("a"), [], "3", "old")])

  const SWAPPED_TARGET := Tree("Q", map[
    "Q" := Item("list", None, ["y", "x"], "r", ""),
    "x" := Item("item", Some("Q"), ["z"], "1", ""),
    "y" := Item("item", Some("Q"), [], "2", ""),
    "z" := Item("leaf", Some("x"), [], "3", "new")])

  const ORDER_RULE := SuppressionRule("order", Reorder, "order", 1.0)

  lemma OrderRuleEnabled()
    ensures RulesEnabled([ORDER_RULE])
  {
  }

  lemma SwappedSourceShape()
    ensures Nested(SWAPPED_SOURCE, "a")
  {
  }

  lemma SwappedSourceItems()
    ensures Itemized(SWAPPED_SOURCE)
  {
  }

  lemma SwappedSourceCarries()
    ensures Terse(SWAPPED_SOURCE)
  {
    SwappedSourceShape();
    SwappedSourceItems();
    NestedCarries(SWAPPED_SOURCE, "a");
  }

  lemma SwappedSourceUnique()
    ensures ItemIdsUnique(SWAPPED_SOURCE)
  {
    SwappedSourceItems();
    UniqueByOwner(SWAPPED_SOURCE, map["r" := "R", "1" := "a", "2" := "b", "3" := "c"]);
  }

  lemma SwappedTargetShape()
    ensures Nested(SWAPPED_TARGET, "x")
  {
  }

  lemma SwappedTargetItems()
    ensures Itemized(SWAPPED_TARGET)
  {
  }

  lemma SwappedTargetCarries()
    ensures AllCarry(SWAPPED_TARGET)
  {
    SwappedTargetShape();
    SwappedTargetItems();
    NestedCarries(SWAPPED_TARGET, "x");
  }

  lemma SwappedTargetUnique()
    ensures ItemIdsUnique(SWAPPED_TARGET)
  {
    SwappedTargetItems();
    UniqueByOwner(SWAPPED_TARGET, map["r" := "Q", "1" := "x", "2" := "y", "3" := "z"]);
  }

  /** What the shape of the two trees and their pairs say. */
  ghost predicate SwappedShape(r: Run)
  {
    var source, target, g := r.x.source, r.x.target, r.x.graph;
    source.root == "R" && target.root == "Q" && source.root in source.nodes && target.root in target.nodes &&
    source.nodes["R"].children == ["a", "b"] && target.nodes["Q"].children == ["y", "x"] &&
    UnderRoot(source, "a") && "c" in source.nodes && source.nodes["c"].parent == Some("a") &&
    UnderRoot(target, "x") && "z" in target.nodes && target.nodes["z"].parent == Some("x") &&
    g.Pairs("a", "x") && g.Pairs("b", "y") && g.Pairs("c", "z") && g.Pairs("R", "Q")
  }

  lemma SwappedKids()
    ensures SWAPPED_SOURCE.root == "R" && SWAPPED_TARGET.root == "Q"
    ensures "R" in SWAPPED_SOURCE.nodes && SWAPPED_SOURCE.nodes["R"].children == ["a", "b"]
    ensures "Q" in SWAPPED_TARGET.nodes && SWAPPED_TARGET.nodes["Q"].children == ["y", "x"]
    ensures UnderRoot(SWAPPED_SOURCE, "a") && "c" in SWAPPED_SOURCE.nodes
    ensures SWAPPED_SOURCE.nodes["c"].parent == Some("a")
    ensures UnderRoot(SWAPPED_TARGET, "x") && "z" in SWAPPED_TARGET.nodes
    ensures SWAPPED_TARGET.nodes["z"].parent == Some("x")
  {
  }

  lemma SwappedPairs()
    ensures SameItem(SWAPPED_SOURCE, SWAPPED_TARGET, "a", "x") && SameItem(SWAPPED_SOURCE, SWAPPED_TARGET, "b", "y")
  {
  }

  lemma KeptPairs()
    ensures SameItem(SWAPPED_SOURCE, SWAPPED_TARGET, "c", "z") && SameItem(SWAPPED_SOURCE, SWAPPED_TARGET, "R", "Q")
  {
  }

  lemma SwappedIsShuffled(r: Run)
    requires r.Sound() && SwappedShape(r) && r.x.profile == AlignmentProfile(true, map[])
    ensures Shuffled(r, "R", "Q")
  {
    PartnerIsPair(r, "a", "x");
    PartnerIsPair(r, "b", "y");
    assert r.x.Heads("R", "Q");
    var scs, tcs := ChildrenOf(r.x.source, "R"), ChildrenOf(r.x.target, "Q");
    assert scs[0] == "a" && scs[1] == "b" && tcs[0] == "y" && tcs[1] == "x";
  }

  lemma SwappedReach(r: Run, op: StructuralOperation)
    requires r.Sound() && SwappedShape(r) && op in r.ops && op.id == ReorderId("R")
    requires r.x.profile == AlignmentProfile(true, map[])
    ensures Affects(r.x.source, r.alignment, op, "z") && op.kind == Reorder && op.confidence == 1.0
  {
    var tp := ReorderAffects(r, op, "R");
    SwappedLists(r, op, tp);
    SwappedKeeps(r);
    assert WithinReach(r, op, "R", tp, "z");
    ReorderIsCertain(r, op);
  }

  lemma SwappedKeeps(r: Run)
    requires SwappedShape(r)
    ensures KeptUnder(r, "a", "z")
  {
    assert r.Stays("c", "z");
  }

  lemma ReorderIsCertain(r: Run, op: StructuralOperation)
    requires r.Sound() && op in r.ops && op.id.ReorderId?
    ensures op.confidence == 1.0
  {
    EmittedByKind(r, op);
  }

  lemma SwappedLists(r: Run, op: StructuralOperation, tp: NodeRef)
    requires r.Sound() && SwappedShape(r) && ReorderOf(r, op, "R", tp)
    ensures "a" in op.sources
  {
    assert r.x.Heads("R", tp);
    if tp != "Q" { OnlyPartner(r, "R", "Q"); }
    assert KeptPair(r, "R", "Q", "a", "x");
  }

  /** Some effect of the operation lists the node. */
  ghost predicate Hides(result: SuppressionResult, id: OperationId, n: NodeRef)
  {
    exists u :: 0 <= u < |result.effects| && result.effects[u].root == id && n in result.effects[u].affected
  }

  lemma SwappedFate(r: Run, result: SuppressionResult, fired: seq<Firing>)
    requires r.Sound() && SwappedShape(r) && r.x.profile == AlignmentProfile(true, map[])
    requires Reorder in r.profile.enabled
    requires Over(r, [ORDER_RULE]).IsSuppression(result, fired)
    ensures Hides(result, ReorderId("R"), "z")
  {
    SwappedIsShuffled(r);
    ReorderIff(r, "R");
    var i :| 0 <= i < |r.ops| && r.ops[i].id == ReorderId("R");
    SwappedReach(r, r.ops[i]);
    var u := EffectOfFiring(r, [ORDER_RULE], result, fired, i, 0);
  }

  lemma SwappedOutcome(signature: Node -> string, r: Reconciled, z: Reconciliation, fired: seq<Firing>)
    requires Ran(SWAPPED_SOURCE, SWAPPED_TARGET, BY_ID, signature, r, z)
    requires Over(z.run, [ORDER_RULE]).IsSuppression(r.suppression, fired)
    requires SameItemsPaired(SWAPPED_SOURCE, SWAPPED_TARGET, r)
    ensures r.graph.Pairs("c", "z") && Hides(r.suppression, ReorderId("R"), "z")
  {
    SwappedPairs();
    KeptPairs();
    SwappedKids();
    ProducedIsSound(z);
    SwappedFate(z.run, r.suppression, fired);
  }

  /** Swapping two children folds the child of one of them into the effect, though nothing around it changed. */
  method ReorderHidesGrandchild(signature: Node -> string) returns (r: Reconciled)
    ensures r.Complete? && r.graph.Pairs("c", "z") && Hides(r.suppression, ReorderId("R"), "z")
  {
    SwappedSourceCarries();
    SwappedSourceUnique();
    SwappedTargetCarries();
    SwappedTargetUnique();
    OrderRuleEnabled();
    ghost var z, fired;
    r, z, fired := CompareById(SWAPPED_SOURCE, SWAPPED_TARGET, [ORDER_RULE], signature);
    SwappedOutcome(signature, r, z, fired);
  }

  // ---------------------------------------------------------------- constructors that raise

  /** Identifiers are authoritative and no feature has a weight, which is the default. */
  const UNWEIGHTED := MatchingProfile([PersistentId], [], {PersistentId}, true, 0.5, 0.4, 0.05)

  lemma SharedIdIsConfirmed(source: Tree, target: Tree, matching: MatchingProfile, lang: Language, s: NodeRef,
                            t: NodeRef)
    requires AllCarry(source) && AllCarry(target) && ItemIdsUnique(source) && ItemIdsUnique(target)
    requires SameItem(source, target, s, t) && PersistentId in matching.authoritative && matching.hardNodeType
    ensures Compare(source, target, matching).Normal(lang, source) == source
    ensures Compare(source, target, matching).Normal(lang, target) == target
    ensures Compare(source, target, matching).Input(lang).AuthConfirmed(s, t)
  {
    VerbatimKeeps(source, lang.sp);
    VerbatimKeeps(target, lang.sp);
    EvidenceShows(source, lang.signature);
    EvidenceShows(target, lang.signature);
    SameItemIsConfirmed(Compare(source, target, matching).Input(lang), source, target, lang.signature, s, t);
  }

  lemma SharedIdRaises(source: Tree, target: Tree, lang: Language, s: NodeRef, t: NodeRef)
    requires AllCarry(source) && AllCarry(target) && ItemIdsUnique(source) && ItemIdsUnique(target)
    requires SameItem(source, target, s, t)
    ensures Compare(source, target, UNWEIGHTED).Input(lang).Raises()
  {
    SharedIdIsConfirmed(source, target, UNWEIGHTED, lang, s, t);
    UnweightedRaisesIff(Compare(source, target, UNWEIGHTED).Input(lang));
  }

  /** One shared identifier is enough: the profile passes every check, and the engine returns no result. */
  method UnweightedEngineRaises(source: Tree, target: Tree, signature: Node -> string, ghost s: NodeRef,
                                ghost t: NodeRef)
    returns (r: Result<Reconciled, EngineError>)
    requires AllCarry(source) && AllCarry(target) && ItemIdsUnique(source) && ItemIdsUnique(target)
    requires SameItem(source, target, s, t)
    ensures r.Err? && r.error.MatchWithoutEvidence?
  {
    var lang := Language(ANY_SPACES, signature);
    PlainIsAdmitted(source, target, UNWEIGHTED, []);
    SharedIdRaises(source, target, lang, s, t);
    ghost var z, fired;
    r, z, fired := Reconcile(Compare(source, target, UNWEIGHTED), lang);
  }

  /** Two parent pairs whose region ids are both `region:a->b->c`. */
  const ARROW_SOURCE := Tree("a", map[
    "a" := Item("list", None, ["a->b"], "r", ""),
    "a->b" := Item("item", Some("a"), [], "k", "")])

  const ARROW_TARGET := Tree("b->c", map[
    "b->c" := Item("list", None, ["c"], "r", ""),
    "c" := Item("item", Some("b->c"), [], "k", "")])

  lemma ArrowSourceShape()
    ensures Flat(ARROW_SOURCE)
  {
  }

  lemma ArrowSourceItems()
    ensures Itemized(ARROW_SOURCE)
  {
  }

  lemma ArrowSourceCarries()
    ensures AllCarry(ARROW_SOURCE) && ItemIdsUnique(ARROW_SOURCE)
  {
    ArrowSourceShape();
    ArrowSourceItems();
    FlatCarries(ARROW_SOURCE);
  }

  lemma ArrowTargetShape()
    ensures Flat(ARROW_TARGET)
  {
  }

  lemma ArrowTargetItems()
    ensures Itemized(ARROW_TARGET)
  {
  }

  lemma ArrowTargetCarries()
    ensures AllCarry(ARROW_TARGET) && ItemIdsUnique(ARROW_TARGET)
  {
    ArrowTargetShape();
    ArrowTargetItems();
    FlatCarries(ARROW_TARGET);
  }

  lemma ArrowPair()
    requires Itemized(ARROW_SOURCE) && Itemized(ARROW_TARGET)
    ensures SameItem(ARROW_SOURCE, ARROW_TARGET, "a->b", "c")
  {
  }

  lemma ByIdReturns(x: MatchInput)
    requires x.profile == BY_ID
    ensures !x.Raises()
  {
    SignalWeights();
    WeightedMatcherReturns(x);
  }

  /** A pair below the roots whose string form is that of the roots. */
  lemma SharedArrowRepeats(source: Tree, target: Tree, lang: Language, s: NodeRef, t: NodeRef)
    requires AllCarry(source) && AllCarry(target) && ItemIdsUnique(source) && ItemIdsUnique(target)
    requires SameItem(source, target, s, t) && s != source.root
    requires Arrow(MatchId(s, t)) == Arrow(MatchId(source.root, target.root))
    ensures var c := Compare(source, target, BY_ID);
      !c.Input(lang).Raises() && c.RegionIdsRepeat(lang)
  {
    ByIdReturns(Compare(source, target, BY_ID).Input(lang));
    SharedIdIsConfirmed(source, target, BY_ID, lang, s, t);
    ConfirmedArrowRepeats(source, target, Compare(source, target, BY_ID).Input(lang), s, t);
  }

  lemma ConfirmedArrowRepeats(source: Tree, target: Tree, x: MatchInput, s: NodeRef, t: NodeRef)
    requires x.AuthConfirmed(s, t) && s != source.root
    requires Arrow(MatchId(s, t)) == Arrow(MatchId(source.root, target.root))
    ensures ParentsRepeat(source, target, x)
  {
    assert Corresponding(source, target, x, MatchId(s, t));
    assert Corresponding(source, target, x, MatchId(source.root, target.root));
  }

  lemma ArrowsMeet()
    ensures Arrow(MatchId("a->b", "c")) == "a->b->c" == Arrow(MatchId("a", "b->c"))
  {
  }

  lemma ArrowIsAdmitted(lang: Language)
    ensures var c := Compare(ARROW_SOURCE, ARROW_TARGET, BY_ID);
      c.Constructed() && c.Admitted() && !c.Input(lang).Raises() && c.RegionIdsRepeat(lang)
  {
    ArrowSourceCarries();
    ArrowTargetCarries();
    ArrowPair();
    PlainIsAdmitted(ARROW_SOURCE, ARROW_TARGET, BY_ID, []);
    ArrowsMeet();
    SharedArrowRepeats(ARROW_SOURCE, ARROW_TARGET, lang, "a->b", "c");
  }

  method RepeatedRegionIdRaises(signature: Node -> string) returns (r: Result<Reconciled, EngineError>)
    ensures r == Err(RepeatedRegionId)
  {
    var lang := Language(ANY_SPACES, signature);
    ArrowIsAdmitted(lang);
    ghost var z, fired;
    r, z, fired := Reconcile(Compare(ARROW_SOURCE, ARROW_TARGET, BY_ID), lang);
  }
}
