/** Structural operations and the invariants their constructor enforces. */
module Operations {
  import opened Options
  import opened Ordering
  import opened Profiles
  import opened Matches

  datatype OperationId =
    | MatchedId(source: NodeRef, target: NodeRef)
    | UpdateId(source: NodeRef, target: NodeRef)
    | MoveId(source: NodeRef, target: NodeRef)
    | DeleteId(node: NodeRef)
    | InsertId(node: NodeRef)
    | ReorderId(parent: NodeRef)

  datatype EvidenceCode =
    | IdentityPreserved
    | ContentChanged
    | SourceOnlyCode
    | TargetOnlyCode
    | ForcedByPolicy
    | ConfirmedIdentity
    | ParentChanged
    | SiblingOrderChanged

  datatype StructuralOperation = StructuralOperation(
    id: OperationId,
    kind: OperationType,
    sources: seq<NodeRef>,
    targets: seq<NodeRef>,
    fromParent: Option<NodeRef>,
    toParent: Option<NodeRef>,
    confidence: real,
    matchIds: seq<MatchId>,
    codes: seq<EvidenceCode>)
  {
    /** The constructor's checks: REORDER needs siblings, MOVE a new parent, matches their support. */
    predicate WellFormed()
    {
      0.0 <= confidence <= 1.0 &&
      (kind == Reorder ==> |sources| >= 2) &&
      (kind == Move ==> fromParent != toParent && matchIds != []) &&
      (kind in {Match, Update} ==> matchIds != [])
    }
  }

  function RenderKind(kind: OperationType): string
  {
    match kind
    case Match => "MATCH"
    case Insert => "INSERT"
    case Delete => "DELETE"
    case Update => "UPDATE"
    case Move => "MOVE"
    case Reorder => "REORDER"
  }

  function RenderId(id: OperationId): string
  {
    match id
    case MatchedId(s, t) => "op:match:" + Arrow(MatchId(s, t))
    case UpdateId(s, t) => "op:update:" + Arrow(MatchId(s, t))
    case MoveId(s, t) => "op:move:" + Arrow(MatchId(s, t))
    case DeleteId(n) => "op:delete:" + n
    case InsertId(n) => "op:insert:" + n
    case ReorderId(p) => "op:reorder:" + p
  }

  predicate NamesPair(id: OperationId)
  {
    id.MatchedId? || id.UpdateId? || id.MoveId?
  }

  lemma RenderPrefix(id: OperationId)
    ensures var r := RenderId(id);
      match id
      case MatchedId(s, t) => r[..5] == "op:ma" && r[9..] == Arrow(MatchId(s, t))
      case UpdateId(s, t) => r[..5] == "op:up" && r[10..] == Arrow(MatchId(s, t))
      case MoveId(s, t) => r[..5] == "op:mo" && r[8..] == Arrow(MatchId(s, t))
      case DeleteId(n) => r[..5] == "op:de" && r[10..] == n
      case InsertId(n) => r[..5] == "op:in" && r[10..] == n
      case ReorderId(p) => r[..5] == "op:re" && r[11..] == p
  {
  }

  /** The string forms of two operation ids differ unless an arrow in a source handle confuses them. */
  lemma RenderIdInjective(a: OperationId, b: OperationId)
    requires RenderId(a) == RenderId(b)
    requires NamesPair(a) ==> !HasArrow(a.source)
    requires NamesPair(b) ==> !HasArrow(b.source)
    ensures a == b
  {
    RenderPrefix(a);
    RenderPrefix(b);
    if NamesPair(a) && NamesPair(b) { ArrowInjective(MatchId(a.source, a.target), MatchId(b.source, b.target)); }
  }

  /** Output order: by type name, then by rendered id. */
  predicate OperationNotAbove(a: StructuralOperation, b: StructuralOperation)
  {
    Below(RenderKind(a.kind), RenderKind(b.kind)) ||
    (RenderKind(a.kind) == RenderKind(b.kind) && !Below(RenderId(b.id), RenderId(a.id)))
  }

  lemma OperationOrder()
    ensures TotalPreorder(OperationNotAbove)
  {
    forall a, b
      ensures OperationNotAbove(a, b) || OperationNotAbove(b, a)
    {
      BelowTotal(RenderKind(a.kind), RenderKind(b.kind));
      BelowTotal(RenderId(a.id), RenderId(b.id));
    }
    forall a, b, c | OperationNotAbove(a, b) && OperationNotAbove(b, c)
      ensures OperationNotAbove(a, c)
    {
      StepDown(RenderKind(a.kind), RenderId(a.id), RenderKind(b.kind), RenderId(b.id), RenderKind(c.kind),
        RenderId(c.id));
    }
  }

  lemma StepDown(k1: string, i1: string, k2: string, i2: string, k3: string, i3: string)
    requires Below(k1, k2) || (k1 == k2 && !Below(i2, i1))
    requires Below(k2, k3) || (k2 == k3 && !Below(i3, i2))
    ensures Below(k1, k3) || (k1 == k3 && !Below(i3, i1))
  {
    if Below(k1, k2) && Below(k2, k3) { BelowTransitive(k1, k2, k3); }
    BelowTotal(i1, i2);
    BelowTotal(i2, i3);
    BelowTotal(i1, i3);
    if Below(i1, i2) && Below(i2, i3) { BelowTransitive(i1, i2, i3); }
  }
}
