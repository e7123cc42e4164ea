/** Identity evidence per node, and detection of duplicated persistent identifiers. */
module Evidence {
  import opened Options
  import opened Ordering
  import opened Trees

  datatype NodeEvidence = NodeEvidence(
    nodeType: string,
    persistentId: Option<string>,
    labelText: Option<string>,
    signature: string,
    childSignature: string)

  type Side = map<NodeRef, NodeEvidence>

  datatype EvidenceIndex = EvidenceIndex(
    source: Side,
    target: Side,
    duplicateSourceIds: set<string>,
    duplicateTargetIds: set<string>)

  const ID_KEYS := ["id", "xml:id", "guid", "key"]
  const LABEL_KEYS := ["label", "title", "navtitle"]

  /** The first key whose identity value, or failing that content value, is a non-empty string. */
  function FirstPresent(n: Node, keys: seq<string>): Option<string>
  {
    if keys == [] then None
    else
      var fromIdentity := Lookup(n.identity, keys[0]);
      var value := if fromIdentity == VNull then Lookup(n.content, keys[0]) else fromIdentity;
      if value.VStr? && value.s != "" then Some(value.s) else FirstPresent(n, keys[1..])
  }

  function Lookup(m: Properties, key: string): Value
  {
    if key in m then m[key] else VNull
  }

  function PersistentIdOf(n: Node): Option<string>
  {
    FirstPresent(n, ID_KEYS)
  }

  ghost predicate ChildrenResolve(t: Tree)
  {
    forall n, c :: n in t.nodes && c in t.nodes[n].children ==> c in t.nodes
  }

  function ChildTypes(t: Tree, cs: seq<NodeRef>): string
    requires forall c :: c in cs ==> c in t.nodes
  {
    if cs == [] then ""
    else if |cs| == 1 then t.nodes[cs[0]].nodeType
    else t.nodes[cs[0]].nodeType + "," + ChildTypes(t, cs[1..])
  }

  /** `signature` renders type, non-id identity and content; it is a parameter of the model. */
  function EvidenceFor(t: Tree, n: NodeRef, signature: Node -> string): NodeEvidence
    requires n in t.nodes && ChildrenResolve(t)
  {
    var node := t.nodes[n];
    NodeEvidence(
      node.nodeType,
      PersistentIdOf(node),
      FirstPresent(node, LABEL_KEYS),
      signature(node),
      ChildTypes(t, node.children))
  }

  // ---------------------------------------------------------------- what the evidence of a node is

  /** The text a key offers: from identity unless that is absent or null, else from content; never an empty one. */
  ghost predicate Offers(n: Node, key: string, text: string)
  {
    text != "" &&
    if key in n.identity && n.identity[key] != VNull then n.identity[key] == VStr(text)
    else key in n.content && n.content[key] == VStr(text)
  }

  ghost predicate OffersNothing(n: Node, key: string)
  {
    forall text :: !Offers(n, key, text)
  }

  ghost predicate IsFirstOffer(n: Node, keys: seq<string>, k: nat, text: string)
  {
    k < |keys| && Offers(n, keys[k], text) && forall i :: 0 <= i < k ==> OffersNothing(n, keys[i])
  }

  lemma HeadOffers(n: Node, keys: seq<string>)
    requires keys != []
    ensures forall text :: Offers(n, keys[0], text) ==> FirstPresent(n, keys) == Some(text)
    ensures OffersNothing(n, keys[0]) ==> FirstPresent(n, keys) == FirstPresent(n, keys[1..])
  {
    var fromIdentity := Lookup(n.identity, keys[0]);
    var value := if fromIdentity == VNull then Lookup(n.content, keys[0]) else fromIdentity;
    if value.VStr? && value.s != "" { assert Offers(n, keys[0], value.s); }
  }

  /** The first of the keys that offers a text decides. */
  lemma {:induction false} FirstOffered(n: Node, keys: seq<string>)
    ensures FirstPresent(n, keys).Some? ==> exists k: nat :: IsFirstOffer(n, keys, k, FirstPresent(n, keys).value)
    ensures FirstPresent(n, keys) == None ==> forall k :: 0 <= k < |keys| ==> OffersNothing(n, keys[k])
  {
    if keys != [] {
      var rest := keys[1..];
      FirstOffered(n, rest);
      HeadOffers(n, keys);
      assert forall i :: 0 < i < |keys| ==> keys[i] == rest[i - 1];
      if text :| Offers(n, keys[0], text) {
        assert FirstPresent(n, keys) == Some(text);
        assert IsFirstOffer(n, keys, 0, FirstPresent(n, keys).value);
      } else if FirstPresent(n, keys).Some? {
        var k: nat :| IsFirstOffer(n, rest, k, FirstPresent(n, keys).value);
        assert IsFirstOffer(n, keys, k + 1, FirstPresent(n, keys).value);
      } else {
        forall k | 0 <= k < |keys|
          ensures OffersNothing(n, keys[k])
        {
          if k > 0 { assert OffersNothing(n, rest[k - 1]); }
        }
      }
    }
  }

  /** `text` is what the first offering key among the four id keys offers. */
  ghost predicate IsPersistentId(n: Node, text: string)
  {
    Offers(n, "id", text) ||
    (OffersNothing(n, "id") &&
      (Offers(n, "xml:id", text) ||
      (OffersNothing(n, "xml:id") &&
        (Offers(n, "guid", text) || (OffersNothing(n, "guid") && Offers(n, "key", text))))))
  }

  ghost predicate IsLabel(n: Node, text: string)
  {
    Offers(n, "label", text) ||
    (OffersNothing(n, "label") &&
      (Offers(n, "title", text) || (OffersNothing(n, "title") && Offers(n, "navtitle", text))))
  }

  /** The joined types of the children, in child order. */
  function Join(types: seq<string>): string
  {
    if types == [] then "" else if |types| == 1 then types[0] else types[0] + "," + Join(types[1..])
  }

  function TypesOf(t: Tree, cs: seq<NodeRef>): seq<string>
    requires forall c :: c in cs ==> c in t.nodes
  {
    seq(|cs|, i requires 0 <= i < |cs| => t.nodes[cs[i]].nodeType)
  }

  lemma {:induction false} ChildTypesAreJoined(t: Tree, cs: seq<NodeRef>)
    requires forall c :: c in cs ==> c in t.nodes
    ensures ChildTypes(t, cs) == Join(TypesOf(t, cs))
  {
    if |cs| > 1 {
      ChildTypesAreJoined(t, cs[1..]);
      assert TypesOf(t, cs)[1..] == TypesOf(t, cs[1..]);
    }
  }

  ghost predicate CommaFree(types: seq<string>)
  {
    forall i :: 0 <= i < |types| ==> ',' !in types[i]
  }

  lemma CommaSplits(a: string, b: string, rest: string, rest': string)
    requires ',' !in a && ',' !in b && a + "," + rest == b + "," + rest'
    ensures a == b && rest == rest'
  {
    var x, y := a + "," + rest, b + "," + rest';
    assert x[|a|] == ',' && y[|b|] == ',';
    assert forall i :: 0 <= i < |a| ==> x[i] == a[i];
    assert forall i :: 0 <= i < |b| ==> y[i] == b[i];
    assert |a| == |b|;
    assert x[..|a|] == a && y[..|b|] == b && x[|a| + 1..] == rest && y[|b| + 1..] == rest';
  }

  lemma {:induction false} JoinInjective(a: seq<string>, b: seq<string>)
    requires a != [] && b != [] && CommaFree(a) && CommaFree(b)
    ensures Join(a) == Join(b) <==> a == b
  {
    if |a| > 1 { assert Join(a)[|a[0]|] == ','; }
    if |b| > 1 { assert Join(b)[|b[0]|] == ','; }
    if Join(a) == Join(b) && |a| > 1 && |b| > 1 {
      CommaSplits(a[0], b[0], Join(a[1..]), Join(b[1..]));
      JoinInjective(a[1..], b[1..]);
      assert a == [a[0]] + a[1..] && b == [b[0]] + b[1..];
    } else if Join(a) == Join(b) {
      assert a == [a[0]] + a[1..] && b == [b[0]] + b[1..];
    }
  }

  /** Nodes with children share a child signature exactly if their child types agree, one by one. */
  lemma ChildSignaturesAgreeIff(t: Tree, n: NodeRef, u: Tree, m: NodeRef, signature: Node -> string)
    requires ChildrenResolve(t) && ChildrenResolve(u) && n in t.nodes && m in u.nodes
    requires t.nodes[n].children != [] && u.nodes[m].children != []
    requires CommaFree(TypesOf(t, t.nodes[n].children)) && CommaFree(TypesOf(u, u.nodes[m].children))
    ensures EvidenceFor(t, n, signature).childSignature == EvidenceFor(u, m, signature).childSignature <==>
      TypesOf(t, t.nodes[n].children) == TypesOf(u, u.nodes[m].children)
  {
    ChildTypesAreJoined(t, t.nodes[n].children);
    ChildTypesAreJoined(u, u.nodes[m].children);
    JoinInjective(TypesOf(t, t.nodes[n].children), TypesOf(u, u.nodes[m].children));
  }

  /** Type and signature as they are; the identifier and the label that the keys offer, in their order. */
  lemma EvidenceShowsNode(t: Tree, n: NodeRef, signature: Node -> string)
    requires ChildrenResolve(t) && n in t.nodes
    ensures var e := EvidenceFor(t, n, signature);
      e.nodeType == t.nodes[n].nodeType && e.signature == signature(t.nodes[n]) &&
      (forall text :: e.persistentId == Some(text) <==> IsPersistentId(t.nodes[n], text)) &&
      (forall text :: e.labelText == Some(text) <==> IsLabel(t.nodes[n], text))
  {
    FirstOffered(t.nodes[n], ID_KEYS);
    FirstOffered(t.nodes[n], LABEL_KEYS);
    assert ID_KEYS[0] == "id" && ID_KEYS[1] == "xml:id" && ID_KEYS[2] == "guid" && ID_KEYS[3] == "key";
    assert LABEL_KEYS[0] == "label" && LABEL_KEYS[1] == "title" && LABEL_KEYS[2] == "navtitle";
  }

  /** `id` is carried by two different nodes. */
  ghost predicate Duplicated(side: Side, id: string)
  {
    exists n, m :: n in side && m in side && n != m &&
      side[n].persistentId == Some(id) && side[m].persistentId == Some(id)
  }

  ghost predicate IsEvidence(t: Tree, signature: Node -> string, side: Side, duplicates: set<string>)
  {
    ChildrenResolve(t) && side.Keys == t.nodes.Keys &&
    (forall n :: n in side ==> side[n] == EvidenceFor(t, n, signature)) &&
    forall id :: id in duplicates <==> Duplicated(side, id)
  }

  /** The index the matcher receives for a pair of trees. */
  ghost predicate IsIndex(source: Tree, target: Tree, signature: Node -> string, ev: EvidenceIndex)
  {
    IsEvidence(source, signature, ev.source, ev.duplicateSourceIds) &&
    IsEvidence(target, signature, ev.target, ev.duplicateTargetIds)
  }

  ghost function SideOf(t: Tree, signature: Node -> string): Side
  {
    if ChildrenResolve(t) then map n | n in t.nodes :: EvidenceFor(t, n, signature) else map[]
  }

  ghost function DuplicatesOf(side: Side): set<string>
  {
    set n | n in side && side[n].persistentId.Some? && Duplicated(side, side[n].persistentId.value) ::
      side[n].persistentId.value
  }

  ghost function IndexOf(source: Tree, target: Tree, signature: Node -> string): EvidenceIndex
  {
    var s, t := SideOf(source, signature), SideOf(target, signature);
    EvidenceIndex(s, t, DuplicatesOf(s), DuplicatesOf(t))
  }

  lemma EvidenceIsUnique(t: Tree, signature: Node -> string, side: Side, duplicates: set<string>)
    requires ChildrenResolve(t)
    ensures IsEvidence(t, signature, side, duplicates) <==>
      side == SideOf(t, signature) && duplicates == DuplicatesOf(side)
  {
    if IsEvidence(t, signature, side, duplicates) {
      assert side == SideOf(t, signature);
      forall id | id in duplicates
        ensures id in DuplicatesOf(side)
      {
        assert Duplicated(side, id);
      }
    }
  }

  /** Two trees have exactly one index. */
  lemma IndexIsUnique(source: Tree, target: Tree, signature: Node -> string, ev: EvidenceIndex)
    requires ChildrenResolve(source) && ChildrenResolve(target)
    ensures IsIndex(source, target, signature, ev) <==> ev == IndexOf(source, target, signature)
  {
    EvidenceIsUnique(source, signature, ev.source, ev.duplicateSourceIds);
    EvidenceIsUnique(target, signature, ev.target, ev.duplicateTargetIds);
  }

  /** `counts` separates ids seen never, once, and more than once among `ids`. */
  ghost predicate CountsIds(ids: seq<Option<string>>, counts: map<string, nat>)
  {
    (forall id :: id in counts <==> Some(id) in ids) &&
    (forall id :: id in counts ==> counts[id] > 0 && (counts[id] > 1 <==> Repeats(ids, id)))
  }

  ghost predicate Repeats(ids: seq<Option<string>>, id: string)
  {
    exists j, k :: 0 <= j < k < |ids| && ids[j] == Some(id) && ids[k] == Some(id)
  }

  lemma CountStep(ids: seq<Option<string>>, counts: map<string, nat>, id: string)
    requires CountsIds(ids, counts)
    ensures CountsIds(ids + [Some(id)], counts[id := (if id in counts then counts[id] else 0) + 1])
  {
    var ids' := ids + [Some(id)];
    forall other
      ensures other != id ==> (Repeats(ids', other) <==> Repeats(ids, other))
      ensures other == id ==> (Repeats(ids', other) <==> Some(id) in ids)
    {
      if Repeats(ids, other) {
        var j, k :| 0 <= j < k < |ids| && ids[j] == Some(other) && ids[k] == Some(other);
        assert ids'[j] == Some(other) && ids'[k] == Some(other);
      }
      if other == id && Some(id) in ids {
        var j :| 0 <= j < |ids| && ids[j] == Some(id);
        assert ids'[j] == Some(id) && ids'[|ids|] == Some(id);
      }
    }
  }

  lemma CountSkip(ids: seq<Option<string>>, counts: map<string, nat>)
    requires CountsIds(ids, counts)
    ensures CountsIds(ids + [None], counts)
  {
    var ids' := ids + [None];
    forall id
      ensures Repeats(ids', id) <==> Repeats(ids, id)
    {
      if Repeats(ids, id) {
        var j, k :| 0 <= j < k < |ids| && ids[j] == Some(id) && ids[k] == Some(id);
        assert ids'[j] == Some(id) && ids'[k] == Some(id);
      }
    }
  }

  /** One pass over the sorted references: record each description and count its id. */
  method CollectEvidence(refs: seq<NodeRef>, describe: NodeRef --> NodeEvidence)
    returns (side: Side, duplicates: set<string>)
    requires Distinct(refs) && forall i :: 0 <= i < |refs| ==> describe.requires(refs[i])
    ensures side.Keys == set r | r in refs
    ensures forall i :: 0 <= i < |refs| ==> side[refs[i]] == describe(refs[i])
    ensures forall id :: id in duplicates <==> Duplicated(side, id)
  {
    side := map[];
    var counts: map<string, nat> := map[];
    ghost var ids: seq<Option<string>> := [];
    for i := 0 to |refs|
      invariant side.Keys == set j | 0 <= j < i :: refs[j]
      invariant forall j :: 0 <= j < i ==> side[refs[j]] == describe(refs[j])
      invariant |ids| == i && forall j :: 0 <= j < i ==> ids[j] == side[refs[j]].persistentId
      invariant CountsIds(ids, counts)
    {
      var evidence := describe(refs[i]);
      var id := evidence.persistentId;
      if id.Some? {
        CountStep(ids, counts, id.value);
        counts := counts[id.value := (if id.value in counts then counts[id.value] else 0) + 1];
      } else {
        CountSkip(ids, counts);
      }
      ids := ids + [id];
      side := side[refs[i] := evidence];
    }
    duplicates := set id | id in counts && counts[id] > 1;
    forall id
      ensures id in duplicates <==> Duplicated(side, id)
    {
      RepeatsIffDuplicated(side, refs, ids, id);
    }
  }

  method ExtractTree(t: Tree, signature: Node -> string) returns (side: Side, duplicates: set<string>)
    requires ChildrenResolve(t)
    ensures IsEvidence(t, signature, side, duplicates)
  {
    var refs := SortRefs(t.nodes.Keys);
    assert forall i :: 0 <= i < |refs| ==> refs[i] in refs;
    side, duplicates := CollectEvidence(refs, n requires n in t.nodes && ChildrenResolve(t) =>
      EvidenceFor(t, n, signature));
    forall n | n in side
      ensures side[n] == EvidenceFor(t, n, signature)
    {
      var i :| 0 <= i < |refs| && refs[i] == n;
    }
  }

  lemma RepeatsIffDuplicated(side: Side, refs: seq<NodeRef>, ids: seq<Option<string>>, id: string)
    requires Distinct(refs) && side.Keys == set r | r in refs
    requires |ids| == |refs|
    requires forall j :: 0 <= j < |refs| ==> refs[j] in side && ids[j] == side[refs[j]].persistentId
    ensures Repeats(ids, id) <==> Duplicated(side, id)
  {
    if Duplicated(side, id) {
      var n, m :| n in side && m in side && n != m &&
        side[n].persistentId == Some(id) && side[m].persistentId == Some(id);
      assert n in refs && m in refs;
      var j :| 0 <= j < |refs| && refs[j] == n;
      var k :| 0 <= k < |refs| && refs[k] == m;
      assert ids[j] == Some(id) && ids[k] == Some(id);
      assert j < k || k < j;
    }
  }

  method Extract(source: Tree, target: Tree, signature: Node -> string) returns (ev: EvidenceIndex)
    requires ChildrenResolve(source) && ChildrenResolve(target)
    ensures IsIndex(source, target, signature, ev)
  {
    var s, ds := ExtractTree(source, signature);
    var t, dt := ExtractTree(target, signature);
    ev := EvidenceIndex(s, t, ds, dt);
  }
}
