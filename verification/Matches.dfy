/** The match graph contract: candidates, their states, and one-to-one confirmation. */
module Matches {
  import opened Options
  import opened Ordering
  import opened Scoring

  datatype MatchState = Confirmed | Proposed | Ambiguous | Rejected | Unmatched

  datatype MatchId = MatchId(source: NodeRef, target: NodeRef)

  /** The part that the string forms of match, region and operation ids share. */
  function Arrow(id: MatchId): string
  {
    id.source + "->" + id.target
  }

  predicate HasArrow(s: string)
  {
    exists i :: 0 <= i < |s| - 1 && s[i] == '-' && s[i + 1] == '>'
  }

  /** Two pairs share a string form only if some source handle contains an arrow. */
  lemma ArrowInjective(a: MatchId, b: MatchId)
    requires Arrow(a) == Arrow(b) && !HasArrow(a.source) && !HasArrow(b.source)
    ensures a == b
  {
    ArrowAt(a, b);
    ArrowAt(b, a);
    assert a.source == Arrow(a)[..|a.source|] && a.target == Arrow(a)[|a.source| + 2..];
    assert b.source == Arrow(b)[..|b.source|] && b.target == Arrow(b)[|b.source| + 2..];
  }

  lemma ArrowAt(a: MatchId, b: MatchId)
    requires Arrow(a) == Arrow(b) && !HasArrow(b.source)
    ensures |a.source| >= |b.source|
  {
    var k := |a.source|;
    assert Arrow(a)[k] == '-' && Arrow(a)[k + 1] == '>';
    assert forall i :: 0 <= i < |b.source| ==> Arrow(b)[i] == b.source[i];
    assert Arrow(b)[|b.source|] == '-';
  }

  datatype MatchCandidate = MatchCandidate(
    source: NodeRef,
    target: NodeRef,
    state: MatchState,
    score: FeatureScore,
    confidence: real,
    violations: Violations,
    alternatives: seq<MatchId>)
  {
    function Id(): MatchId
    {
      MatchId(source, target)
    }

    /** The candidate contract: evidence, alternatives, no hard violation, values in range. */
    predicate WellFormed()
    {
      (state in {Confirmed, Ambiguous} ==> score.contributions != []) &&
      (state == Ambiguous ==> alternatives != []) &&
      (state == Confirmed ==> violations.hard == []) &&
      0.0 <= score.value <= 1.0 && 0.0 <= confidence <= 1.0
    }
  }

  datatype MatchGraph = MatchGraph(candidates: seq<MatchCandidate>)
  {
    /** `s` and `t` correspond. */
    ghost predicate Pairs(s: NodeRef, t: NodeRef)
    {
      exists c :: c in candidates && c.state == Confirmed && c.source == s && c.target == t
    }

    ghost predicate AmbiguousEdge(s: NodeRef, t: NodeRef)
    {
      exists c :: c in candidates && c.state == Ambiguous && c.source == s && c.target == t
    }

    /** No node takes part in two confirmed matches, counting repeated candidates as two. */
    ghost predicate OneToOne()
    {
      forall i, j | 0 <= i < j < |candidates| :: Compatible(candidates[i], candidates[j])
    }

    function ConfirmedTargetFor(s: NodeRef): Option<NodeRef>
    {
      FirstTarget(candidates, s)
    }

    function ConfirmedSourceFor(t: NodeRef): Option<NodeRef>
    {
      FirstSource(candidates, t)
    }

    /** The confidence of a confirmed pair, or zero. */
    function ConfirmedConfidence(s: NodeRef, t: NodeRef): real
    {
      FirstConfidence(candidates, s, t)
    }
  }

  /** Two candidates that are both confirmed share no node. */
  predicate Compatible(a: MatchCandidate, b: MatchCandidate)
  {
    a.state == Confirmed && b.state == Confirmed ==> a.source != b.source && a.target != b.target
  }

  function FirstTarget(cs: seq<MatchCandidate>, s: NodeRef): Option<NodeRef>
  {
    if cs == [] then None
    else if cs[0].state == Confirmed && cs[0].source == s then Some(cs[0].target)
    else FirstTarget(cs[1..], s)
  }

  function FirstSource(cs: seq<MatchCandidate>, t: NodeRef): Option<NodeRef>
  {
    if cs == [] then None
    else if cs[0].state == Confirmed && cs[0].target == t then Some(cs[0].source)
    else FirstSource(cs[1..], t)
  }

  function FirstConfidence(cs: seq<MatchCandidate>, s: NodeRef, t: NodeRef): real
  {
    if cs == [] then 0.0
    else if cs[0].state == Confirmed && cs[0].source == s && cs[0].target == t then cs[0].confidence
    else FirstConfidence(cs[1..], s, t)
  }

  /** Candidates of one state, in graph order. */
  function WithState(cs: seq<MatchCandidate>, state: MatchState): (r: seq<MatchCandidate>)
    ensures forall c :: c in r <==> c in cs && c.state == state
  {
    if cs == [] then []
    else (if cs[0].state == state then [cs[0]] else []) + WithState(cs[1..], state)
  }

  lemma SelectionOfHead(c: MatchCandidate, rest: seq<MatchCandidate>, all: seq<MatchCandidate>, state: MatchState)
    requires all == [c] + rest
    ensures WithState(all, state) == (if c.state == state then [c] else []) + WithState(rest, state)
  {
    assert all[0] == c && all[1..] == rest;
  }

  lemma RegroupCandidates(a: seq<MatchCandidate>, b: seq<MatchCandidate>, c: seq<MatchCandidate>)
    ensures (a + b) + c == a + (b + c)
  {
  }

  /** The selection goes part by part, so it keeps graph order. */
  lemma {:induction false} SelectionSplits(a: seq<MatchCandidate>, b: seq<MatchCandidate>, state: MatchState)
    ensures WithState(a + b, state) == WithState(a, state) + WithState(b, state)
  {
    if a == [] {
      assert a + b == b;
    } else {
      var c, rest := a[0], a[1..];
      SelectionSplits(rest, b, state);
      RegroupCandidates([c], rest, b);
      assert a == [c] + rest;
      SelectionOfHead(c, rest, a, state);
      SelectionOfHead(c, rest + b, a + b, state);
      RegroupCandidates(if c.state == state then [c] else [], WithState(rest, state), WithState(b, state));
    }
  }

  // ---------------------------------------------------------------- lookups

  lemma {:induction false} FirstTargetFinds(cs: seq<MatchCandidate>, s: NodeRef)
    ensures match FirstTarget(cs, s)
      case Some(t) => exists c :: c in cs && c.state == Confirmed && c.source == s && c.target == t
      case None => forall c :: c in cs && c.state == Confirmed ==> c.source != s
  {
    if cs != [] {
      FirstTargetFinds(cs[1..], s);
      assert cs[0] in cs;
    }
  }

  lemma {:induction false} FirstSourceFinds(cs: seq<MatchCandidate>, t: NodeRef)
    ensures match FirstSource(cs, t)
      case Some(s) => exists c :: c in cs && c.state == Confirmed && c.source == s && c.target == t
      case None => forall c :: c in cs && c.state == Confirmed ==> c.target != t
  {
    if cs != [] {
      FirstSourceFinds(cs[1..], t);
      assert cs[0] in cs;
    }
  }

  lemma {:induction false} FirstConfidenceFinds(cs: seq<MatchCandidate>, s: NodeRef, t: NodeRef)
    requires exists c :: c in cs && c.state == Confirmed && c.source == s && c.target == t
    ensures exists c :: (c in cs && c.state == Confirmed && c.source == s && c.target == t &&
      c.confidence == FirstConfidence(cs, s, t))
  {
    if cs[0].state == Confirmed && cs[0].source == s && cs[0].target == t {
      assert cs[0] in cs;
    } else {
      FirstConfidenceFinds(cs[1..], s, t);
    }
  }

  lemma PairsUnique(g: MatchGraph, s: NodeRef, t: NodeRef, s': NodeRef, t': NodeRef)
    requires g.OneToOne() && g.Pairs(s, t) && g.Pairs(s', t')
    ensures s == s' <==> t == t'
  {
    var c :| c in g.candidates && c.state == Confirmed && c.source == s && c.target == t;
    var d :| d in g.candidates && d.state == Confirmed && d.source == s' && d.target == t';
    var i :| 0 <= i < |g.candidates| && g.candidates[i] == c;
    var j :| 0 <= j < |g.candidates| && g.candidates[j] == d;
    assert i < j || j < i || i == j;
  }

  /** In a one-to-one graph the lookups are exactly the correspondence relation. */
  lemma LookupIsPairing(g: MatchGraph, s: NodeRef, t: NodeRef)
    requires g.OneToOne()
    ensures g.ConfirmedTargetFor(s) == Some(t) <==> g.Pairs(s, t)
    ensures g.ConfirmedSourceFor(t) == Some(s) <==> g.Pairs(s, t)
  {
    FirstTargetFinds(g.candidates, s);
    FirstSourceFinds(g.candidates, t);
    if g.ConfirmedTargetFor(s).Some? && g.Pairs(s, t) {
      PairsUnique(g, s, t, s, g.ConfirmedTargetFor(s).value);
    }
    if g.ConfirmedSourceFor(t).Some? && g.Pairs(s, t) {
      PairsUnique(g, s, t, g.ConfirmedSourceFor(t).value, t);
    }
  }

  /** The graph constructor's check: grow two sets and reject the first repeat. */
  method CheckOneToOne(g: MatchGraph) returns (ok: bool)
    ensures ok <==> g.OneToOne()
  {
    var cs := g.candidates;
    var sources: set<NodeRef> := {};
    var targets: set<NodeRef> := {};
    for i := 0 to |cs|
      invariant sources == set j | 0 <= j < i && cs[j].state == Confirmed :: cs[j].source
      invariant targets == set j | 0 <= j < i && cs[j].state == Confirmed :: cs[j].target
      invariant forall j, k | 0 <= j < k < i :: Compatible(cs[j], cs[k])
    {
      if cs[i].state != Confirmed {
        continue;
      }
      if cs[i].source in sources || cs[i].target in targets {
        assert exists j :: 0 <= j < i && !Compatible(cs[j], cs[i]);
        return false;
      }
      sources := sources + {cs[i].source};
      targets := targets + {cs[i].target};
    }
    return true;
  }
}
