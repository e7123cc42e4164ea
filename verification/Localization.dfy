/** Localization interpretation: which issue each core finding becomes, and the second ambiguity barrier. */
module Localization {
  import opened Options
  import opened Ordering
  import opened Trees
  import opened Profiles
  import opened Matches
  import opened Alignment
  import opened Operations

  datatype Status =
    | ConfirmedMatch
    | ProbableMatch
    | ExemptLocaleVariation
    | AmbiguousMatch
    | WrongOrder
    | SourceUpdated
    | ExtraInLocale
    | MissingInLocale
    | WrongParent
    | IdentifierConflict

  datatype Finding = Finding(
    status: Status,
    source: Option<NodeRef>,
    locale: Option<NodeRef>,
    matchIds: seq<MatchId>,
    operationIds: seq<OperationId>)

  datatype Issue = Issue(number: nat, finding: Finding)

  type MoveIndex = map<NodeRef, StructuralOperation>

  /** The core result together with what translation state and locale policy decide. */
  datatype Interpretation = Interpretation(
    source: Tree,
    locale: Tree,
    graph: MatchGraph,
    alignment: AlignmentResult,
    ops: seq<StructuralOperation>,
    conflicts: nat,
    stale: (Node, Node) -> bool,
    exempt: (OperationType, string) -> bool,
    threshold: real)
  {
    function Ambiguous(): seq<MatchCandidate>
    {
      WithState(graph.candidates, MatchState.Ambiguous)
    }

    function AmbiguousRefs(): set<NodeRef>
    {
      set c | c in Ambiguous() :: c.source
    }

    /** Sources held in an ambiguity, by the graph or by the alignment. */
    function HeldSources(): set<NodeRef>
    {
      AmbiguousRefs() +
      set g, p | g in alignment.regions && p in g.pairs && p.kind == UnresolvedSource && p.source.Some? ::
        p.source.value
    }

    function HeldTargets(): set<NodeRef>
    {
      (set c | c in Ambiguous() :: c.target) +
      set g, p | g in alignment.regions && p in g.pairs && p.kind == UnresolvedTarget && p.target.Some? ::
        p.target.value
    }
  }

  // ---------------------------------------------------------------- one finding each

  ghost predicate IsMoveIndex(ops: seq<StructuralOperation>, moves: MoveIndex)
  {
    (forall s :: s in moves <==> exists op :: op in ops && op.kind == Move && s in op.sources) &&
    forall s :: s in moves ==> moves[s] in ops && moves[s].kind == Move && s in moves[s].sources
  }

  function ConfirmedFinding(x: Interpretation, moves: MoveIndex, c: MatchCandidate): Option<Finding>
  {
    if c.source !in x.source.nodes || x.source.nodes[c.source].parent == None then None
    else
      var status :=
        if c.source in moves then WrongParent
        else if c.target in x.locale.nodes && x.stale(x.source.nodes[c.source], x.locale.nodes[c.target]) then
          SourceUpdated
        else if c.confidence >= x.threshold then ConfirmedMatch
        else ProbableMatch;
      Some(Finding(status, Some(c.source), Some(c.target), [c.Id()],
                   if c.source in moves then [moves[c.source].id] else []))
  }

  /** The ids of the ambiguous candidates of one source, in graph order. */
  function GroupIds(cs: seq<MatchCandidate>, s: NodeRef, k: nat): seq<MatchId>
    requires k <= |cs|
    decreases k
  {
    if k == 0 then [] else GroupIds(cs, s, k - 1) + if cs[k - 1].source == s then [cs[k - 1].Id()] else []
  }

  function AmbiguousFinding(x: Interpretation, s: NodeRef): Option<Finding>
  {
    Some(Finding(AmbiguousMatch, Some(s), None, GroupIds(x.Ambiguous(), s, |x.Ambiguous()|), []))
  }

  function ReorderFinding(op: StructuralOperation): Option<Finding>
  {
    if op.kind != Reorder then None
    else Some(Finding(WrongOrder, if op.sources != [] then Some(op.sources[0]) else None, None, op.matchIds, [op.id]))
  }

  function TypeOf(t: Tree, n: NodeRef): string
  {
    if n in t.nodes then t.nodes[n].nodeType else ""
  }

  /** MISSING or EXTRA for a one-sided node, unless the policy exempts it. */
  function PresenceFinding(x: Interpretation, op: StructuralOperation): Option<Finding>
  {
    if op.kind == Delete && op.sources != [] then
      var s := op.sources[0];
      Some(Finding(if x.exempt(Delete, TypeOf(x.source, s)) then ExemptLocaleVariation else MissingInLocale,
                   Some(s), None, [], [op.id]))
    else if op.kind == Insert && op.targets != [] then
      var t := op.targets[0];
      Some(Finding(if x.exempt(Insert, TypeOf(x.locale, t)) then ExemptLocaleVariation else ExtraInLocale,
                   None, Some(t), [], [op.id]))
    else None
  }

  const CONFLICT := Finding(IdentifierConflict, None, None, [], [])

  // ---------------------------------------------------------------- lists of findings

  /** What `find` says about the first `k` items, in order. */
  function Gathered<T>(find: T -> Option<Finding>, xs: seq<T>, k: nat): seq<Finding>
    requires k <= |xs|
    decreases k
  {
    if k == 0 then []
    else
      Gathered(find, xs, k - 1) +
      match find(xs[k - 1])
      case None => []
      case Some(f) => [f]
  }

  lemma {:induction false} GatheredAre<T>(find: T -> Option<Finding>, xs: seq<T>, k: nat, f: Finding)
    requires k <= |xs|
    ensures f in Gathered(find, xs, k) <==> exists i :: 0 <= i < k && find(xs[i]) == Some(f)
  {
    if k > 0 { GatheredAre(find, xs, k - 1, f); }
  }

  lemma Gathers<T>(find: T -> Option<Finding>, xs: seq<T>, f: Finding)
    ensures f in Gathered(find, xs, |xs|) <==> exists x :: x in xs && find(x) == Some(f)
  {
    GatheredAre(find, xs, |xs|, f);
    if x :| x in xs && find(x) == Some(f) {
      var i :| 0 <= i < |xs| && xs[i] == x;
    }
  }

  function Numbered(fs: seq<Finding>): seq<Issue>
  {
    seq(|fs|, i requires 0 <= i < |fs| => Issue(i + 1, fs[i]))
  }

  function ConfirmedPart(x: Interpretation, moves: MoveIndex): seq<Finding>
  {
    var confirmed := WithState(x.graph.candidates, Confirmed);
    Gathered((c: MatchCandidate) => ConfirmedFinding(x, moves, c), confirmed, |confirmed|)
  }

  function AmbiguousPart(x: Interpretation, refs: seq<NodeRef>): seq<Finding>
  {
    Gathered((s: NodeRef) => AmbiguousFinding(x, s), refs, |refs|)
  }

  function ReorderPart(x: Interpretation): seq<Finding>
  {
    Gathered(ReorderFinding, x.ops, |x.ops|)
  }

  function PresencePart(x: Interpretation): seq<Finding>
  {
    Gathered((op: StructuralOperation) => PresenceFinding(x, op), x.ops, |x.ops|)
  }

  /** All findings before the second barrier. */
  function RawFindings(x: Interpretation, moves: MoveIndex, refs: seq<NodeRef>): seq<Finding>
  {
    ConfirmedPart(x, moves) + AmbiguousPart(x, refs) + ReorderPart(x) + PresencePart(x) +
    seq(x.conflicts, i requires 0 <= i < x.conflicts => CONFLICT)
  }

  // ---------------------------------------------------------------- the second barrier

  /** A presence status about a node held in an ambiguity. */
  predicate Contradicts(x: Interpretation, f: Finding)
  {
    (f.status == MissingInLocale && f.source.Some? && f.source.value in x.HeldSources()) ||
    (f.status == ExtraInLocale && f.locale.Some? && f.locale.value in x.HeldTargets())
  }

  function Kept(x: Interpretation, issues: seq<Issue>, k: nat): seq<Issue>
    requires k <= |issues|
    decreases k
  {
    if k == 0 then []
    else Kept(x, issues, k - 1) + if Contradicts(x, issues[k - 1].finding) then [] else [issues[k - 1]]
  }

  method WithoutContradictoryPresence(x: Interpretation, issues: seq<Issue>) returns (kept: seq<Issue>)
    ensures kept == Kept(x, issues, |issues|)
  {
    var sources, targets := x.HeldSources(), x.HeldTargets();
    kept := [];
    for i := 0 to |issues|
      invariant kept == Kept(x, issues, i)
    {
      var f := issues[i].finding;
      if f.status == MissingInLocale && f.source.Some? && f.source.value in sources {
        continue;
      }
      if f.status == ExtraInLocale && f.locale.Some? && f.locale.value in targets {
        continue;
      }
      kept := kept + [issues[i]];
    }
  }

  lemma {:induction false} KeptAre(x: Interpretation, issues: seq<Issue>, k: nat, i: Issue)
    requires k <= |issues|
    ensures i in Kept(x, issues, k) <==> i in issues[..k] && !Contradicts(x, i.finding)
  {
    if k > 0 {
      KeptAre(x, issues, k - 1, i);
      assert issues[..k] == issues[..k - 1] + [issues[k - 1]];
    }
  }

  lemma {:induction false} NothingDropped(x: Interpretation, issues: seq<Issue>, k: nat)
    requires k <= |issues| && forall i :: 0 <= i < k ==> !Contradicts(x, issues[i].finding)
    ensures Kept(x, issues, k) == issues[..k]
  {
    if k > 0 {
      NothingDropped(x, issues, k - 1);
      assert issues[..k] == issues[..k - 1] + [issues[k - 1]];
    }
  }

  // ---------------------------------------------------------------- the interpreter

  method IndexMoves(ops: seq<StructuralOperation>) returns (moves: MoveIndex)
    ensures IsMoveIndex(ops, moves)
  {
    moves := map[];
    for i := 0 to |ops|
      invariant IsMoveIndex(ops[..i], moves)
    {
      assert ops[..i + 1] == ops[..i] + [ops[i]];
      assert ops[i] in ops[..i + 1];
      if ops[i].kind != Move {
        continue;
      }
      var refs := ops[i].sources;
      ghost var before := moves;
      for j := 0 to |refs|
        invariant forall s :: s in moves <==> s in before || s in refs[..j]
        invariant forall s :: s in moves ==> moves[s] == if s in refs[..j] then ops[i] else before[s]
      {
        assert refs[..j + 1] == refs[..j] + [refs[j]];
        moves := moves[refs[j] := ops[i]];
      }
      assert refs[..|refs|] == refs;
    }
    assert ops[..|ops|] == ops;
  }

  /** Appends what `find` says about each item, numbering on. */
  method AppendAll<T>(find: T -> Option<Finding>, xs: seq<T>, issues: seq<Issue>, ghost fs: seq<Finding>)
    returns (more: seq<Issue>)
    requires issues == Numbered(fs)
    ensures more == Numbered(fs + Gathered(find, xs, |xs|))
  {
    more := issues;
    for i := 0 to |xs|
      invariant more == Numbered(fs + Gathered(find, xs, i))
    {
      ghost var sofar := fs + Gathered(find, xs, i);
      var f := find(xs[i]);
      if f.Some? {
        more := more + [Issue(|more| + 1, f.value)];
        assert fs + Gathered(find, xs, i + 1) == sofar + [f.value];
      } else {
        assert fs + Gathered(find, xs, i + 1) == sofar;
      }
    }
  }

  method AppendConflicts(x: Interpretation, issues: seq<Issue>, ghost fs: seq<Finding>) returns (more: seq<Issue>)
    requires issues == Numbered(fs)
    ensures more == Numbered(fs + seq(x.conflicts, i requires 0 <= i < x.conflicts => CONFLICT))
  {
    more := issues;
    for i := 0 to x.conflicts
      invariant more == Numbered(fs + seq(i, j requires 0 <= j < i => CONFLICT))
    {
      more := more + [Issue(|more| + 1, CONFLICT)];
      assert fs + seq(i + 1, j requires 0 <= j < i + 1 => CONFLICT) ==
        fs + seq(i, j requires 0 <= j < i => CONFLICT) + [CONFLICT];
    }
  }

  /** `_interpret`: confirmed pairs, ambiguous sources, reorders, presence, conflicts; then the barrier. */
  method Interpret(x: Interpretation) returns (issues: seq<Issue>, ghost moves: MoveIndex, ghost refs: seq<NodeRef>)
    ensures IsMoveIndex(x.ops, moves) && Sorts(refs, x.AmbiguousRefs())
    ensures var raw := Numbered(RawFindings(x, moves, refs));
      issues == Kept(x, raw, |raw|)
  {
    var index := IndexMoves(x.ops);
    var sorted := SortRefs(x.AmbiguousRefs());
    moves, refs := index, sorted;
    var confirmed := WithState(x.graph.candidates, Confirmed);
    var raw := AppendAll((c: MatchCandidate) => ConfirmedFinding(x, index, c), confirmed, [], []);
    assert [] + ConfirmedPart(x, moves) == ConfirmedPart(x, moves);
    raw := AppendAll((s: NodeRef) => AmbiguousFinding(x, s), sorted, raw, ConfirmedPart(x, moves));
    raw := AppendAll(ReorderFinding, x.ops, raw, ConfirmedPart(x, moves) + AmbiguousPart(x, refs));
    raw := AppendAll((op: StructuralOperation) => PresenceFinding(x, op), x.ops, raw,
                     ConfirmedPart(x, moves) + AmbiguousPart(x, refs) + ReorderPart(x));
    raw := AppendConflicts(x, raw, ConfirmedPart(x, moves) + AmbiguousPart(x, refs) + ReorderPart(x) + PresencePart(x));
    issues := WithoutContradictoryPresence(x, raw);
  }
}
