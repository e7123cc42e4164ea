/** What adapted trees are: always valid, decodable, and no larger than the JSON limits allow. */
module AdaptedTrees {
  import opened Options
  import opened Ordering
  import opened Trees
  import opened DataRefs
  import opened DataTree
  import opened JsonLimits
  import opened Walks

  // ---------------------------------------------------------------- parts that do not overlap

  ghost predicate Part(a: Nodes, b: Nodes)
  {
    forall key :: key in a ==> key in b && b[key] == a[key]
  }

  /** The handle names a position at or below `p`. */
  ghost predicate Under(p: Position, key: NodeRef)
  {
    exists q :: p <= q && key == Ref(q)
  }

  lemma UnderDeeper(p: Position, more: Position, key: NodeRef)
    requires Under(p + more, key)
    ensures Under(p, key)
  {
    var q :| p + more <= q && key == Ref(q);
    assert p <= q;
  }

  lemma SlotsApart(p: Position, i: nat, j: nat, key: NodeRef)
    requires Under(p + [i], key) && Under(p + [j], key)
    ensures i == j
  {
    var a :| p + [i] <= a && key == Ref(a);
    var b :| p + [j] <= b && key == Ref(b);
    RefInjective(a, b);
    assert a[|p|] == i && b[|p|] == j;
  }

  lemma NotUnderDeeper(p: Position, more: Position)
    requires more != []
    ensures !Under(p + more, Ref(p))
  {
    forall q | p + more <= q
      ensures Ref(p) != Ref(q)
    {
      RefInjective(p, q);
    }
  }

  /** All handles of the part name positions at or below `p`. */
  ghost predicate AllUnder(p: Position, part: Nodes)
  {
    forall key :: key in part ==> Under(p, key)
  }

  lemma UnderLift(p: Position, more: Position, part: Nodes)
    requires AllUnder(p + more, part)
    ensures AllUnder(p, part)
  {
    forall key | key in part
      ensures Under(p, key)
    {
      UnderDeeper(p, more, key);
    }
  }

  lemma {:induction false} UnionUnder(parts: nat -> Nodes, k: nat, p: Position)
    requires forall i: nat :: i < k ==> AllUnder(p + [i], parts(i))
    ensures forall key :: key in Union(parts, k) ==> exists i: nat :: i < k && Under(p + [i], key)
  {
    if k > 0 {
      UnionUnder(parts, k - 1, p);
      assert AllUnder(p + [k - 1], parts(k - 1));
    }
  }

  /** Parts below different members do not overlap, so each survives in the union. */
  lemma {:induction false} PartOfUnion(parts: nat -> Nodes, i: nat, k: nat, p: Position)
    requires i < k && forall j: nat :: j < k ==> AllUnder(p + [j], parts(j))
    ensures Part(parts(i), Union(parts, k))
  {
    if i < k - 1 {
      PartOfUnion(parts, i, k - 1, p);
      assert AllUnder(p + [i], parts(i)) && AllUnder(p + [k - 1], parts(k - 1));
      PartsApart(parts(i), parts(k - 1), p, i, k - 1);
      KeptInUnion(parts(i), Union(parts, k - 1), parts(k - 1));
    }
  }

  lemma PartsApart(a: Nodes, b: Nodes, p: Position, i: nat, j: nat)
    requires i != j && AllUnder(p + [i], a) && AllUnder(p + [j], b)
    ensures forall key :: key in a ==> key !in b
  {
    forall key | key in a && key in b
      ensures false
    {
      SlotsApart(p, i, j, key);
    }
  }

  lemma KeptInUnion(a: Nodes, b: Nodes, c: Nodes)
    requires Part(a, b) && forall key :: key in a ==> key !in c
    ensures Part(a, b + c)
  {
  }

  lemma {:induction false} SubtreeUnder(fmt: Rendering, v: Data, p: Position, path: string)
    requires p != []
    ensures AllUnder(p, Subtree(fmt, v, p, path))
    decreases v, 2
  {
    SlotsUnder(fmt, v, p, path);
    UnionUnder(Slots(fmt, v, p, path), Arity(v), p);
    forall i: nat, key | Under(p + [i], key)
      ensures Under(p, key)
    {
      UnderDeeper(p, [i], key);
    }
    assert p <= p && Under(p, Ref(p));
  }

  lemma {:induction false} SlotsUnder(fmt: Rendering, v: Data, p: Position, path: string)
    requires p != []
    ensures forall i: nat :: i < Arity(v) ==> AllUnder(p + [i], Slots(fmt, v, p, path)(i))
    decreases v, 1
  {
    forall i: nat | i < Arity(v)
      ensures AllUnder(p + [i], Slots(fmt, v, p, path)(i))
    {
      SlotUnder(fmt, v, i, p, path);
    }
  }

  lemma {:induction false} SlotUnder(fmt: Rendering, v: Data, i: nat, p: Position, path: string)
    requires p != [] && i < Arity(v)
    ensures AllUnder(p + [i], Slot(fmt, v, i, p, path))
    decreases v, 0
  {
    assert p + [i] <= p + [i] && Under(p + [i], Ref(p + [i]));
    if Kid(v, i).IsContainer() {
      SubtreeUnder(fmt, Kid(v, i), p + [i, 0], SlotPath(fmt, v, i, path));
      assert p + [i] + [0] == p + [i, 0];
      UnderLift(p + [i], [0], Subtree(fmt, Kid(v, i), p + [i, 0], SlotPath(fmt, v, i, path)));
    }
  }

  lemma OwnNodeKept(fmt: Rendering, v: Data, p: Position, path: string)
    requires p != []
    ensures Ref(p) !in Union(Slots(fmt, v, p, path), Arity(v))
  {
    SlotsUnder(fmt, v, p, path);
    UnionUnder(Slots(fmt, v, p, path), Arity(v), p);
    forall i: nat
      ensures !Under(p + [i], Ref(p))
    {
      NotUnderDeeper(p, [i]);
    }
  }

  lemma SlotNodeKept(fmt: Rendering, v: Data, i: nat, p: Position, path: string)
    requires p != [] && i < Arity(v)
    ensures var s := Slot(fmt, v, i, p, path);
      Ref(p + [i]) in s && s[Ref(p + [i])] == SlotNode(fmt, v, i, p, path)
  {
    if Kid(v, i).IsContainer() {
      SubtreeUnder(fmt, Kid(v, i), p + [i, 0], SlotPath(fmt, v, i, path));
      assert p + [i] + [0] == p + [i, 0];
      NotUnderDeeper(p + [i], [0]);
    }
  }

  /** All that later proofs need to know about where the pieces of a subtree are. */
  ghost predicate Holds(fmt: Rendering, v: Data, p: Position, path: string, n: Nodes)
    requires p != []
  {
    Ref(p) in n && n[Ref(p)] == OwnNode(fmt, v, p, path) &&
    forall i: nat :: i < Arity(v) ==> HoldsSlot(fmt, v, i, p, path, n)
  }

  ghost predicate HoldsSlot(fmt: Rendering, v: Data, i: nat, p: Position, path: string, n: Nodes)
    requires p != [] && i < Arity(v)
  {
    Ref(p + [i]) in n && n[Ref(p + [i])] == SlotNode(fmt, v, i, p, path) &&
    (Kid(v, i).IsContainer() ==> Part(Subtree(fmt, Kid(v, i), p + [i, 0], SlotPath(fmt, v, i, path)), n))
  }

  lemma SubtreeHolds(fmt: Rendering, v: Data, p: Position, path: string, n: Nodes)
    requires p != [] && Part(Subtree(fmt, v, p, path), n)
    ensures Holds(fmt, v, p, path, n)
  {
    OwnNodeKept(fmt, v, p, path);
    assert Ref(p) in Subtree(fmt, v, p, path);
    SlotsUnder(fmt, v, p, path);
    forall i: nat | i < Arity(v)
      ensures HoldsSlot(fmt, v, i, p, path, n)
    {
      PartOfUnion(Slots(fmt, v, p, path), i, Arity(v), p);
      assert Slots(fmt, v, p, path)(i) == Slot(fmt, v, i, p, path);
      SlotHolds(fmt, v, i, p, path, n);
    }
  }

  lemma SlotHolds(fmt: Rendering, v: Data, i: nat, p: Position, path: string, n: Nodes)
    requires p != [] && i < Arity(v) && Part(Slot(fmt, v, i, p, path), n)
    ensures HoldsSlot(fmt, v, i, p, path, n)
  {
    SlotNodeKept(fmt, v, i, p, path);
  }

  // ---------------------------------------------------------------- every node is linked both ways

  /** The node at position `q` is linked to its parent position and to its children positions. */
  ghost predicate Placed(n: Nodes, q: Position)
  {
    q != [] && Ref(q) in n && Ref(Front(q)) in n && n[Ref(q)].parent == Some(Ref(Front(q))) &&
    Last(q) < |n[Ref(Front(q))].children| && Branches(n, Front(q)) && Branches(n, q)
  }

  ghost predicate Branches(n: Nodes, q: Position)
  {
    Ref(q) in n && n[Ref(q)].children == ChildRefs(q, |n[Ref(q)].children|) &&
    forall i: nat :: i < |n[Ref(q)].children| ==> Ref(q + [i]) in n
  }

  ghost predicate AllPlaced(n: Nodes, part: Nodes)
  {
    forall key :: key in part ==> exists q :: key == Ref(q) && Placed(n, q)
  }

  lemma {:induction false} UnionPlaced(n: Nodes, parts: nat -> Nodes, k: nat)
    requires forall i: nat :: i < k ==> AllPlaced(n, parts(i))
    ensures AllPlaced(n, Union(parts, k))
  {
    if k > 0 {
      UnionPlaced(n, parts, k - 1);
      PlacedUnion(n, Union(parts, k - 1), parts(k - 1));
    }
  }

  lemma PlacedUnion(n: Nodes, a: Nodes, b: Nodes)
    requires AllPlaced(n, a) && AllPlaced(n, b)
    ensures AllPlaced(n, a + b)
  {
  }

  lemma PlaceAt(n: Nodes, q: Position, i: nat)
    requires Ref(q) in n && Branches(n, q) && i < |n[Ref(q)].children| && n[Ref(q + [i])].parent == Some(Ref(q))
    requires Branches(n, q + [i])
    ensures Placed(n, q + [i])
  {
    assert Front(q + [i]) == q && Last(q + [i]) == i;
  }

  lemma OwnBranches(fmt: Rendering, v: Data, p: Position, path: string, n: Nodes)
    requires p != [] && Holds(fmt, v, p, path, n)
    ensures Branches(n, p) && |n[Ref(p)].children| == Arity(v) && n[Ref(p)].parent == Some(Ref(Front(p)))
  {
    forall i: nat | i < Arity(v)
      ensures Ref(p + [i]) in n
    {
      assert HoldsSlot(fmt, v, i, p, path, n);
    }
    assert |ChildRefs(p, Arity(v))| == Arity(v);
  }

  lemma SlotLinks(fmt: Rendering, v: Data, i: nat, p: Position, path: string)
    requires i < Arity(v)
    ensures SlotNode(fmt, v, i, p, path).parent == Some(Ref(p))
    ensures SlotNode(fmt, v, i, p, path).children == ChildRefs(p + [i], if Kid(v, i).IsContainer() then 1 else 0)
  {
    assert p + [i] + [0] == p + [i, 0];
  }

  lemma SlotKidHeld(fmt: Rendering, v: Data, i: nat, p: Position, path: string, n: Nodes)
    requires p != [] && i < Arity(v) && HoldsSlot(fmt, v, i, p, path, n) && Kid(v, i).IsContainer()
    ensures Ref(p + [i] + [0]) in n
  {
    SubtreeHolds(fmt, Kid(v, i), p + [i, 0], SlotPath(fmt, v, i, path), n);
    assert p + [i] + [0] == p + [i, 0];
  }

  lemma SlotBranches(fmt: Rendering, v: Data, i: nat, p: Position, path: string, n: Nodes)
    requires p != [] && i < Arity(v) && HoldsSlot(fmt, v, i, p, path, n)
    ensures Branches(n, p + [i]) && n[Ref(p + [i])].parent == Some(Ref(p))
    ensures Kid(v, i).IsContainer() ==> |n[Ref(p + [i])].children| == 1
  {
    SlotLinks(fmt, v, i, p, path);
    if Kid(v, i).IsContainer() { SlotKidHeld(fmt, v, i, p, path, n); }
  }

  lemma OnePlaced(n: Nodes, q: Position, node: Node)
    requires Placed(n, q)
    ensures AllPlaced(n, map[Ref(q) := node])
  {
  }

  /** All handles of a subtree are placed, if its top is one of the children of its parent. */
  lemma {:induction false} SubtreePlaced(fmt: Rendering, v: Data, p: Position, path: string, n: Nodes)
    requires p != [] && Part(Subtree(fmt, v, p, path), n)
    requires Ref(Front(p)) in n && Branches(n, Front(p)) && Last(p) < |n[Ref(Front(p))].children|
    ensures AllPlaced(n, Subtree(fmt, v, p, path))
    decreases v, 2
  {
    SubtreeHolds(fmt, v, p, path, n);
    assert p == Front(p) + [Last(p)];
    OwnBranches(fmt, v, p, path, n);
    PlaceAt(n, Front(p), Last(p));
    OnePlaced(n, p, OwnNode(fmt, v, p, path));
    SlotsPlaced(fmt, v, p, path, n);
    PlacedUnion(n, map[Ref(p) := OwnNode(fmt, v, p, path)], Union(Slots(fmt, v, p, path), Arity(v)));
  }

  lemma {:induction false} SlotsPlaced(fmt: Rendering, v: Data, p: Position, path: string, n: Nodes)
    requires p != [] && Holds(fmt, v, p, path, n) && Branches(n, p) && |n[Ref(p)].children| == Arity(v)
    ensures AllPlaced(n, Union(Slots(fmt, v, p, path), Arity(v)))
    decreases v, 1
  {
    forall i: nat | i < Arity(v)
      ensures AllPlaced(n, Slots(fmt, v, p, path)(i))
    {
      SlotPlaced(fmt, v, i, p, path, n);
    }
    UnionPlaced(n, Slots(fmt, v, p, path), Arity(v));
  }

  lemma {:induction false} SlotPlaced(fmt: Rendering, v: Data, i: nat, p: Position, path: string, n: Nodes)
    requires p != [] && i < Arity(v) && Holds(fmt, v, p, path, n) && Branches(n, p) && |n[Ref(p)].children| == Arity(v)
    ensures AllPlaced(n, Slot(fmt, v, i, p, path))
    decreases v, 0
  {
    var at, kid := p + [i], Kid(v, i);
    assert HoldsSlot(fmt, v, i, p, path, n);
    SlotBranches(fmt, v, i, p, path, n);
    PlaceAt(n, p, i);
    OnePlaced(n, at, SlotNode(fmt, v, i, p, path));
    if kid.IsContainer() {
      assert Front(p + [i, 0]) == at && Last(p + [i, 0]) == 0;
      SubtreePlaced(fmt, kid, p + [i, 0], SlotPath(fmt, v, i, path), n);
      PlacedUnion(n, map[Ref(at) := SlotNode(fmt, v, i, p, path)],
        Subtree(fmt, kid, p + [i, 0], SlotPath(fmt, v, i, path)));
    } else {
      PlacedUnion(n, map[Ref(at) := SlotNode(fmt, v, i, p, path)], map[]);
    }
  }

  // ---------------------------------------------------------------- validity

  /** Every node is the root or placed. */
  ghost predicate Rooted(n: Nodes)
  {
    "n" in n && n["n"].parent == None && Branches(n, []) && forall key {:trigger HasPlace(n, key)} :: HasPlace(n, key)
  }

  ghost predicate HasPlace(n: Nodes, key: NodeRef)
  {
    key in n && key != "n" ==> exists q :: key == Ref(q) && Placed(n, q)
  }

  lemma RootKept(fmt: Rendering, v: Data, format: string)
    ensures var n, part := Adapted(fmt, v, format).nodes, Subtree(fmt, v, [0], "$");
      "n" in n && n["n"] == DocumentNode(format) && "n" !in part && Part(part, n)
  {
    SubtreeUnder(fmt, v, [0], "$");
    assert [] + [0] == [0];
    NotUnderDeeper([], [0]);
  }

  lemma RootBranches(fmt: Rendering, v: Data, format: string)
    ensures Branches(Adapted(fmt, v, format).nodes, [])
  {
    RootKept(fmt, v, format);
    assert [] + [0] == [0];
    assert Ref([0]) in Subtree(fmt, v, [0], "$");
    assert ChildRefs([], 1) == [Ref([0])];
  }

  lemma RootedFrom(n: Nodes, document: Node, part: Nodes)
    requires n == map["n" := document] + part && "n" !in part && document.parent == None
    requires Branches(n, []) && AllPlaced(n, part)
    ensures Rooted(n)
  {
    forall key
      ensures HasPlace(n, key)
    {
      if key in part {
        var q :| key == Ref(q) && Placed(n, q);
      }
    }
  }

  lemma RootPlaced(fmt: Rendering, v: Data, format: string)
    ensures Rooted(Adapted(fmt, v, format).nodes)
  {
    var n, part := Adapted(fmt, v, format).nodes, Subtree(fmt, v, [0], "$");
    RootKept(fmt, v, format);
    RootBranches(fmt, v, format);
    assert Front([0]) == [] && Last([0]) == 0;
    SubtreePlaced(fmt, v, [0], "$", n);
    RootedFrom(n, DocumentNode(format), part);
  }

  lemma PlaceOf(n: Nodes, q: Position)
    requires Rooted(n) && Ref(q) in n
    ensures q == [] || Placed(n, q)
  {
    RefInjective([], q);
    if q != [] {
      assert HasPlace(n, Ref(q));
      var p :| Ref(q) == Ref(p) && Placed(n, p);
      RefInjective(p, q);
    }
  }

  lemma ClimbStep(n: Nodes, q: Position)
    requires Placed(n, q) && Tree("n", n).Up(Ref(Front(q)), |q| - 1) == Some("n")
    ensures Tree("n", n).Up(Ref(q), |q|) == Some("n")
  {
  }

  lemma {:induction false} PlacedClimbs(n: Nodes, q: Position)
    requires Rooted(n) && (q == [] || Placed(n, q))
    ensures Tree("n", n).Up(Ref(q), |q|) == Some("n")
    decreases |q|
  {
    if q != [] {
      PlaceOf(n, Front(q));
      PlacedClimbs(n, Front(q));
      ClimbStep(n, q);
    }
  }

  lemma KidIsLinked(n: Nodes, q: Position, i: nat)
    requires Rooted(n) && Ref(q) in n && Branches(n, q) && i < |n[Ref(q)].children|
    ensures var kid := n[Ref(q)].children[i];
      kid in n && n[kid].parent == Some(Ref(q)) && kid != Ref(q)
  {
    PlaceOf(n, q + [i]);
    RefInjective(q, q + [i]);
    assert Front(q + [i]) == q;
  }

  lemma ParentIsLinked(n: Nodes, q: Position)
    requires Placed(n, q)
    ensures Ref(q) in n[Ref(Front(q))].children && Ref(q) != Ref(Front(q)) && Ref(q) != "n"
  {
    RefsApart(q);
    ChildRefAt(Front(q), |n[Ref(Front(q))].children|, Last(q));
    assert q == Front(q) + [Last(q)];
  }

  lemma RefsApart(q: Position)
    requires q != []
    ensures Ref(q) != Ref(Front(q)) && Ref(q) != "n"
  {
    RefInjective(q, Front(q));
    RefInjective(q, []);
  }

  lemma ChildRefAt(p: Position, n: nat, i: nat)
    requires i < n
    ensures Ref(p + [i]) in ChildRefs(p, n)
  {
    assert ChildRefs(p, n)[i] == Ref(p + [i]);
  }

  lemma PlacedIsLinked(n: Nodes, q: Position)
    requires Rooted(n) && (q == [] || Placed(n, q))
    ensures Ref(q) in n && Tree("n", n).LinksAt(Ref(q)) && Distinct(n[Ref(q)].children) && Ref(q) !in n[Ref(q)].children
    ensures n[Ref(q)].parent != Some(Ref(q))
  {
    var kids := n[Ref(q)].children;
    ChildRefsDistinct(q, |kids|);
    forall kid | kid in kids
      ensures kid in n && n[kid].parent == Some(Ref(q)) && kid != Ref(q)
    {
      var i :| 0 <= i < |kids| && kids[i] == kid;
      KidIsLinked(n, q, i);
    }
    if q != [] { ParentIsLinked(n, q); }
  }

  /** The adapter only ever produces trees the validator accepts. */
  lemma AdaptedIsValid(fmt: Rendering, v: Data, format: string)
    ensures Adapted(fmt, v, format).Valid()
  {
    var t := Adapted(fmt, v, format);
    RootPlaced(fmt, v, format);
    forall key | key in t.nodes
      ensures t.LinksAt(key) && t.Anchored(key) && Distinct(t.nodes[key].children)
      ensures key !in t.nodes[key].children && t.nodes[key].parent != Some(key)
    {
      var q: Position := [];
      if key != "n" {
        assert HasPlace(t.nodes, key);
        q :| key == Ref(q) && Placed(t.nodes, q);
      }
      PlacedIsLinked(t.nodes, q);
      PlacedClimbs(t.nodes, q);
    }
  }

  // ---------------------------------------------------------------- decoding

  function DecodeScalar(content: Properties): Option<Data>
  {
    if "value" !in content then None
    else match content["value"]
      case VNull => Some(DNull)
      case VBool(b) => Some(DBool(b))
      case VInt(i) => Some(DInt(i))
      case VReal(r) => Some(DReal(r))
      case VStr(s) => Some(DStr(s))
      case _ => None
  }

  /** All of the first `k` values, or none. */
  function Collect<T>(get: nat -> Option<T>, k: nat): Option<seq<T>>
  {
    if k == 0 then Some([])
    else
      var front, last := Collect(get, k - 1), get(k - 1);
      if front.None? || last.None? then None else Some(front.value + [last.value])
  }

  lemma {:induction false} Collects<T>(get: nat -> Option<T>, xs: seq<T>, k: nat)
    requires k <= |xs| && forall i: nat :: i < k ==> get(i) == Some(xs[i])
    ensures Collect(get, k) == Some(xs[..k])
  {
    if k > 0 {
      Collects(get, xs, k - 1);
      assert xs[..k] == xs[..k - 1] + [xs[k - 1]];
    }
  }

  /** The value of the node `ref`; `fuel` bounds the nesting. */
  function Decode(n: Nodes, ref: NodeRef, fuel: nat): Option<Data>
    decreases fuel, 0
  {
    if ref !in n || fuel == 0 then None
    else if n[ref].nodeType == "data:array" then
      var items := Collect(DecodeItems(n, n[ref].children, fuel - 1), |n[ref].children|);
      if items.None? then None else Some(DArray(items.value))
    else if n[ref].nodeType == "data:object" then
      var entries := Collect(DecodeEntries(n, n[ref].children, fuel - 1), |n[ref].children|);
      if entries.None? then None else Some(DObject(entries.value))
    else DecodeScalar(n[ref].content)
  }

  /** The value held by a property or item node. */
  function DecodeSlot(n: Nodes, ref: NodeRef, fuel: nat): Option<Data>
    decreases fuel, 1
  {
    if ref !in n then None
    else if n[ref].children == [] then DecodeScalar(n[ref].content)
    else Decode(n, n[ref].children[0], fuel)
  }

  function DecodeItems(n: Nodes, refs: seq<NodeRef>, fuel: nat): nat -> Option<Data>
    decreases fuel, 2
  {
    (i: nat) => if i < |refs| then DecodeSlot(n, refs[i], fuel) else None
  }

  function DecodeKey(n: Nodes, ref: NodeRef): Key
  {
    if ref in n && "key" in n[ref].identity && n[ref].identity["key"].VStr? then TextKey(n[ref].identity["key"].s)
    else OtherKey
  }

  function DecodeEntries(n: Nodes, refs: seq<NodeRef>, fuel: nat): nat -> Option<Entry>
    decreases fuel, 2
  {
    (i: nat) =>
      if i >= |refs| then None
      else
        var value := DecodeSlot(n, refs[i], fuel);
        if value.None? then None else Some(Entry(DecodeKey(n, refs[i]), value.value))
  }

  /** The value of an adapted tree. */
  function DecodeTree(t: Tree): Option<Data>
  {
    if t.root in t.nodes && t.nodes[t.root].children != []
    then Decode(t.nodes, t.nodes[t.root].children[0], |t.nodes|)
    else None
  }

  lemma DecodesScalar(fmt: Rendering, v: Data)
    requires SupportedScalar(v)
    ensures DecodeScalar(ScalarContent(fmt, v)) == Some(v)
    ensures ScalarType(v) != "data:array" && ScalarType(v) != "data:object"
  {
  }

  lemma {:induction false} DecodesSubtree(fmt: Rendering, v: Data, p: Position, path: string, n: Nodes, fuel: nat)
    requires p != [] && Supported(v) && Part(Subtree(fmt, v, p, path), n) && fuel >= Depth(v)
    ensures Decode(n, Ref(p), fuel) == Some(v)
    decreases v, 2
  {
    SubtreeHolds(fmt, v, p, path, n);
    if v.IsContainer() {
      DecodesContainer(fmt, v, p, path, n, fuel);
    } else {
      DecodesScalar(fmt, v);
    }
  }

  lemma {:induction false} DecodesContainer(fmt: Rendering, v: Data, p: Position, path: string, n: Nodes, fuel: nat)
    requires p != [] && v.IsContainer() && Supported(v) && Holds(fmt, v, p, path, n) && fuel >= Depth(v)
    ensures Decode(n, Ref(p), fuel) == Some(v)
    decreases v, 1, 1
  {
    var refs, less := ChildRefs(p, Arity(v)), fuel - 1;
    DecodesMembers(fmt, v, p, path, n, less);
    if v.DArray? {
      DecodesItems(v, refs, n, less);
    } else {
      DecodesKeys(fmt, v, p, path, n);
      DecodesEntries(v, refs, n, less);
    }
    MembersDecode(v, Ref(p), n, fuel);
  }

  lemma {:induction false} DecodesMembers(fmt: Rendering, v: Data, p: Position, path: string, n: Nodes, fuel: nat)
    requires p != [] && Supported(v) && Holds(fmt, v, p, path, n) && fuel + 1 >= Depth(v)
    ensures var refs := ChildRefs(p, Arity(v));
      forall i: nat {:trigger MemberDecodes(v, refs, n, fuel, i)} :: i < Arity(v) ==> MemberDecodes(v, refs, n, fuel, i)
    decreases v, 1, 0
  {
    var refs := ChildRefs(p, Arity(v));
    forall i: nat | i < Arity(v)
      ensures MemberDecodes(v, refs, n, fuel, i)
    {
      assert HoldsSlot(fmt, v, i, p, path, n);
      DecodesSlot(fmt, v, i, p, path, n, fuel);
    }
  }

  ghost predicate MemberDecodes(v: Data, refs: seq<NodeRef>, n: Nodes, fuel: nat, i: nat)
    requires i < Arity(v)
  {
    i < |refs| && DecodeSlot(n, refs[i], fuel) == Some(Kid(v, i))
  }

  ghost predicate AllDecode(v: Data, refs: seq<NodeRef>, n: Nodes, fuel: nat)
  {
    match v
    case DArray(items) => Collect(DecodeItems(n, refs, fuel), |refs|) == Some(items)
    case DObject(entries) => Collect(DecodeEntries(n, refs, fuel), |refs|) == Some(entries)
    case _ => false
  }

  lemma MembersDecode(v: Data, ref: NodeRef, n: Nodes, fuel: nat)
    requires ref in n && fuel > 0 && AllDecode(v, n[ref].children, n, fuel - 1)
    requires n[ref].nodeType == if v.DArray? then "data:array" else "data:object"
    ensures Decode(n, ref, fuel) == Some(v)
  {
  }

  lemma DecodesKeys(fmt: Rendering, v: Data, p: Position, path: string, n: Nodes)
    requires p != [] && v.DObject? && TextKeys(v) && Holds(fmt, v, p, path, n)
    ensures forall i: nat :: i < Arity(v) ==> DecodeKey(n, ChildRefs(p, Arity(v))[i]) == v.entries[i].key
  {
    forall i: nat | i < Arity(v)
      ensures DecodeKey(n, ChildRefs(p, Arity(v))[i]) == v.entries[i].key
    {
      assert HoldsSlot(fmt, v, i, p, path, n);
      DecodesKey(fmt, v, i, p, path, n);
    }
  }

  lemma {:induction false} DecodesSlot(fmt: Rendering, v: Data, i: nat, p: Position, path: string, n: Nodes, fuel: nat)
    requires p != [] && i < Arity(v) && Supported(v) && HoldsSlot(fmt, v, i, p, path, n) && fuel + 1 >= Depth(v)
    ensures DecodeSlot(n, Ref(p + [i]), fuel) == Some(Kid(v, i))
    decreases v, 0
  {
    KidIsShallower(v, i, i + 1);
    assert Supported(Kid(v, i));
    if Kid(v, i).IsContainer() {
      DecodesSubtree(fmt, Kid(v, i), p + [i, 0], SlotPath(fmt, v, i, path), n, fuel);
    } else {
      DecodesScalar(fmt, Kid(v, i));
    }
  }

  lemma DecodesKey(fmt: Rendering, v: Data, i: nat, p: Position, path: string, n: Nodes)
    requires p != [] && v.DObject? && i < Arity(v) && TextKeys(v) && HoldsSlot(fmt, v, i, p, path, n)
    ensures DecodeKey(n, Ref(p + [i])) == v.entries[i].key
  {
  }

  lemma DecodesItems(v: Data, refs: seq<NodeRef>, n: Nodes, fuel: nat)
    requires v.DArray? && |refs| == Arity(v)
    requires forall i: nat {:trigger MemberDecodes(v, refs, n, fuel, i)} ::
      i < Arity(v) ==> MemberDecodes(v, refs, n, fuel, i)
    ensures AllDecode(v, refs, n, fuel)
  {
    forall i: nat | i < |refs|
      ensures DecodeItems(n, refs, fuel)(i) == Some(v.items[i])
    {
      assert MemberDecodes(v, refs, n, fuel, i);
    }
    Collects(DecodeItems(n, refs, fuel), v.items, |refs|);
    assert v.items[..|refs|] == v.items;
  }

  lemma DecodesEntries(v: Data, refs: seq<NodeRef>, n: Nodes, fuel: nat)
    requires v.DObject? && |refs| == Arity(v)
    requires forall i: nat {:trigger MemberDecodes(v, refs, n, fuel, i)} ::
      i < Arity(v) ==> MemberDecodes(v, refs, n, fuel, i)
    requires forall i: nat :: i < Arity(v) ==> DecodeKey(n, refs[i]) == v.entries[i].key
    ensures AllDecode(v, refs, n, fuel)
  {
    forall i: nat | i < |refs|
      ensures DecodeEntries(n, refs, fuel)(i) == Some(v.entries[i])
    {
      assert MemberDecodes(v, refs, n, fuel, i);
      assert v.entries[i] == Entry(v.entries[i].key, Kid(v, i));
    }
    Collects(DecodeEntries(n, refs, fuel), v.entries, |refs|);
    assert v.entries[..|refs|] == v.entries;
  }

  // ---------------------------------------------------------------- size and depth

  lemma UnionSize(a: Nodes, b: Nodes)
    ensures |a + b| <= |a| + |b| && |a| <= |a + b| && |b| <= |a + b|
    ensures (forall key :: key in a ==> key !in b) ==> |a + b| == |a| + |b|
  {
    assert (a + b).Keys == a.Keys + b.Keys;
    SubsetSize(a.Keys, (a + b).Keys);
    SubsetSize(b.Keys, (a + b).Keys);
    assert |a.Keys + b.Keys| == |a.Keys| + |b.Keys| - |a.Keys * b.Keys|;
    if forall key :: key in a ==> key !in b { assert a.Keys * b.Keys == {}; }
  }

  ghost predicate AtMostTwice(n: Nodes, size: nat)
  {
    |n| <= 2 * size
  }

  lemma JoinAtMostTwice(a: Nodes, b: Nodes, x: nat, y: nat)
    requires AtMostTwice(a, x) && AtMostTwice(b, y)
    ensures AtMostTwice(a + b, x + y)
  {
    UnionSize(a, b);
  }

  lemma {:induction false} UnionAtMostTwice(parts: nat -> Nodes, v: Data, k: nat)
    requires k <= Arity(v) && forall i: nat {:trigger parts(i)} :: i < k ==> AtMostTwice(parts(i), Size(Kid(v, i)))
    ensures AtMostTwice(Union(parts, k), SizeUpTo(v, k))
  {
    if k > 0 {
      UnionAtMostTwice(parts, v, k - 1);
      JoinAtMostTwice(Union(parts, k - 1), parts(k - 1), SizeUpTo(v, k - 1), Size(Kid(v, k - 1)));
    } else {
      assert |Union(parts, 0)| == 0;
    }
  }

  lemma {:induction false} SubtreeSize(fmt: Rendering, v: Data, p: Position, path: string)
    requires p != []
    ensures |Subtree(fmt, v, p, path)| + 1 <= 2 * Size(v)
    decreases v, 1
  {
    forall i: nat | i < Arity(v)
      ensures AtMostTwice(Slots(fmt, v, p, path)(i), Size(Kid(v, i)))
    {
      SlotSize(fmt, v, i, p, path);
    }
    UnionAtMostTwice(Slots(fmt, v, p, path), v, Arity(v));
    UnionSize(map[Ref(p) := OwnNode(fmt, v, p, path)], Union(Slots(fmt, v, p, path), Arity(v)));
  }

  lemma {:induction false} SlotSize(fmt: Rendering, v: Data, i: nat, p: Position, path: string)
    requires p != [] && i < Arity(v)
    ensures AtMostTwice(Slot(fmt, v, i, p, path), Size(Kid(v, i)))
    decreases v, 0
  {
    var own := map[Ref(p + [i]) := SlotNode(fmt, v, i, p, path)];
    if Kid(v, i).IsContainer() {
      SubtreeSize(fmt, Kid(v, i), p + [i, 0], SlotPath(fmt, v, i, path));
      UnionSize(own, Subtree(fmt, Kid(v, i), p + [i, 0], SlotPath(fmt, v, i, path)));
    } else {
      UnionSize(own, map[]);
    }
  }

  /** Every node of the part sits less than `room` levels below `p`. */
  ghost predicate Shallow(part: Nodes, p: Position, room: nat)
  {
    forall key :: key in part ==> IsWithin(key, p, room)
  }

  ghost predicate IsWithin(key: NodeRef, p: Position, room: nat)
  {
    exists q :: key == Ref(q) && |q| < |p| + room
  }

  lemma ShallowUnion(a: Nodes, b: Nodes, p: Position, room: nat)
    requires Shallow(a, p, room) && Shallow(b, p, room)
    ensures Shallow(a + b, p, room)
  {
  }

  lemma ShallowLift(part: Nodes, p: Position, q: Position, room: nat, more: nat)
    requires Shallow(part, q, room) && |q| + room <= |p| + more
    ensures Shallow(part, p, more)
  {
    forall key | key in part
      ensures IsWithin(key, p, more)
    {
      var at :| key == Ref(at) && |at| < |q| + room;
    }
  }

  lemma ShallowOne(q: Position, node: Node)
    ensures Shallow(map[Ref(q) := node], q, 1)
  {
    assert IsWithin(Ref(q), q, 1);
  }

  lemma {:induction false} PartOfKey(parts: nat -> Nodes, k: nat, key: NodeRef) returns (i: nat)
    requires key in Union(parts, k)
    ensures i < k && key in parts(i)
  {
    if key in parts(k - 1) { i := k - 1; } else { i := PartOfKey(parts, k - 1, key); }
  }

  lemma UnionShallow(parts: nat -> Nodes, k: nat, p: Position, room: nat)
    requires forall i: nat :: i < k ==> Shallow(parts(i), p, room)
    ensures Shallow(Union(parts, k), p, room)
  {
    forall key | key in Union(parts, k)
      ensures IsWithin(key, p, room)
    {
      var i := PartOfKey(parts, k, key);
      assert Shallow(parts(i), p, room);
    }
  }

  lemma {:induction false} SubtreeDepth(fmt: Rendering, v: Data, p: Position, path: string)
    requires p != []
    ensures Shallow(Subtree(fmt, v, p, path), p, 2 * Depth(v) - 1)
    decreases v, 1
  {
    var own, room := map[Ref(p) := OwnNode(fmt, v, p, path)], 2 * Depth(v) - 1;
    ShallowOne(p, OwnNode(fmt, v, p, path));
    ShallowLift(own, p, p, 1, room);
    forall i: nat | i < Arity(v)
      ensures Shallow(Slots(fmt, v, p, path)(i), p, room)
    {
      SlotDepth(fmt, v, i, p, path);
    }
    UnionShallow(Slots(fmt, v, p, path), Arity(v), p, room);
    ShallowUnion(own, Union(Slots(fmt, v, p, path), Arity(v)), p, room);
  }

  lemma {:induction false} SlotDepth(fmt: Rendering, v: Data, i: nat, p: Position, path: string)
    requires p != [] && i < Arity(v)
    ensures Shallow(Slot(fmt, v, i, p, path), p, 2 * Depth(v) - 1)
    decreases v, 0
  {
    var own, room := map[Ref(p + [i]) := SlotNode(fmt, v, i, p, path)], 2 * Depth(v) - 1;
    KidIsShallower(v, i, i + 1);
    ShallowOne(p + [i], SlotNode(fmt, v, i, p, path));
    ShallowLift(own, p, p + [i], 1, room);
    if Kid(v, i).IsContainer() {
      var inner := Subtree(fmt, Kid(v, i), p + [i, 0], SlotPath(fmt, v, i, path));
      SubtreeDepth(fmt, Kid(v, i), p + [i, 0], SlotPath(fmt, v, i, path));
      ShallowLift(inner, p, p + [i, 0], 2 * Depth(Kid(v, i)) - 1, room);
      ShallowUnion(own, inner, p, room);
    } else {
      ShallowUnion(own, map[], p, room);
    }
  }

  // ---------------------------------------------------------------- the theorems

  ghost predicate AtLeast(n: Nodes, size: nat)
  {
    size <= |n|
  }

  lemma {:induction false} UnionAtLeast(parts: nat -> Nodes, v: Data, k: nat)
    requires k <= Arity(v) && forall i: nat :: i < k ==> AtLeast(parts(i), Depth(Kid(v, i)))
    ensures AtLeast(Union(parts, k), DepthUpTo(v, k))
  {
    if k > 0 {
      UnionAtLeast(parts, v, k - 1);
      UnionSize(Union(parts, k - 1), parts(k - 1));
    }
  }

  /** Nesting shows in the number of nodes, so the node count is always enough fuel. */
  lemma {:induction false} DepthBelowNodes(fmt: Rendering, v: Data, p: Position, path: string)
    requires p != []
    ensures Depth(v) <= |Subtree(fmt, v, p, path)|
    decreases v, 1
  {
    forall i: nat | i < Arity(v)
      ensures AtLeast(Slots(fmt, v, p, path)(i), Depth(Kid(v, i)))
    {
      DepthBelowSlot(fmt, v, i, p, path);
    }
    UnionAtLeast(Slots(fmt, v, p, path), v, Arity(v));
    OwnNodeKept(fmt, v, p, path);
    UnionSize(map[Ref(p) := OwnNode(fmt, v, p, path)], Union(Slots(fmt, v, p, path), Arity(v)));
  }

  lemma {:induction false} DepthBelowSlot(fmt: Rendering, v: Data, i: nat, p: Position, path: string)
    requires p != [] && i < Arity(v)
    ensures AtLeast(Slot(fmt, v, i, p, path), Depth(Kid(v, i)))
    decreases v, 0
  {
    var own := map[Ref(p + [i]) := SlotNode(fmt, v, i, p, path)];
    if Kid(v, i).IsContainer() {
      DepthBelowNodes(fmt, Kid(v, i), p + [i, 0], SlotPath(fmt, v, i, path));
      UnionSize(own, Subtree(fmt, Kid(v, i), p + [i, 0], SlotPath(fmt, v, i, path)));
    } else {
      UnionSize(own, map[]);
    }
  }

  /** Round trip: the value, its entry order, keys and typed scalars are all in the tree. */
  lemma DecodesAdapted(fmt: Rendering, v: Data, format: string)
    requires Supported(v)
    ensures DecodeTree(Adapted(fmt, v, format)) == Some(v)
  {
    var t, inner := Adapted(fmt, v, format), Subtree(fmt, v, [0], "$");
    RootKept(fmt, v, format);
    DepthBelowNodes(fmt, v, [0], "$");
    UnionSize(map["n" := DocumentNode(format)], inner);
    DecodesSubtree(fmt, v, [0], "$", t.nodes, |t.nodes|);
    assert t.nodes[t.root].children == [Ref([0])];
  }

  /** Different values never share a tree. */
  lemma AdaptationIsInjective(fmt: Rendering, gmt: Rendering, v: Data, w: Data, f: string, g: string)
    requires Supported(v) && Supported(w) && Adapted(fmt, v, f) == Adapted(gmt, w, g)
    ensures v == w && f == g
  {
    DecodesAdapted(fmt, v, f);
    DecodesAdapted(gmt, w, g);
    RootKept(fmt, v, f);
    RootKept(gmt, w, g);
    assert DocumentNode(f).structural["format"] == VStr(f);
    assert DocumentNode(g).structural["format"] == VStr(g);
  }

  /** The JSON limits bound the tree: at most twice the nodes and twice the depth. */
  lemma LimitsBoundTheTree(fmt: Rendering, v: Data, format: string, limits: Limits, depth: nat)
    requires Size(v) <= limits.maxNodes && Depth(v) <= limits.maxDepth
    requires IsDepth(Adapted(fmt, v, format), depth)
    ensures |Adapted(fmt, v, format).nodes| <= 2 * limits.maxNodes
    ensures depth <= 2 * limits.maxDepth
  {
    var t, inner := Adapted(fmt, v, format), Subtree(fmt, v, [0], "$");
    SubtreeSize(fmt, v, [0], "$");
    UnionSize(map["n" := DocumentNode(format)], inner);
    AdaptedIsValid(fmt, v, format);
    var path :| t.ChildPath(path) && |path| == depth;
    PathLengthIsLevel(t, path);
    NodeIsShallow(fmt, v, format, path[|path| - 1]);
  }

  lemma NodeIsShallow(fmt: Rendering, v: Data, format: string, key: NodeRef)
    requires key in Adapted(fmt, v, format).nodes && Adapted(fmt, v, format).Valid()
    ensures Level(Adapted(fmt, v, format), key) < 2 * Depth(v)
  {
    var t := Adapted(fmt, v, format);
    RootPlaced(fmt, v, format);
    if key == "n" {
      LevelOfParent(t, "n");
    } else {
      SubtreeDepth(fmt, v, [0], "$");
      var q :| key == Ref(q) && |q| < 1 + (2 * Depth(v) - 1);
      assert HasPlace(t.nodes, key);
      var p :| key == Ref(p) && Placed(t.nodes, p);
      RefInjective(p, q);
      PlacedClimbs(t.nodes, q);
      LevelUnique(t, key, |q|, Level(t, key));
    }
  }
}
