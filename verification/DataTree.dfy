/** The adapter from parsed JSON or YAML values to canonical trees. */
module DataTree {
  import opened Options
  import opened Ordering
  import opened Trees
  import opened DataRefs

  // ---------------------------------------------------------------- parsed values

  datatype Key = TextKey(text: string) | OtherKey

  datatype Entry = Entry(key: Key, value: Data)

  /** What a parser returns; `DOther` is any scalar outside the supported ones. */
  datatype Data =
    | DNull
    | DBool(b: bool)
    | DInt(i: int)
    | DReal(r: real)
    | DNonFinite
    | DStr(s: string)
    | DOther
    | DArray(items: seq<Data>)
    | DObject(entries: seq<Entry>)
  {
    predicate IsContainer()
    {
      DArray? || DObject?
    }
  }

  function Arity(v: Data): nat
  {
    match v
    case DArray(items) => |items|
    case DObject(entries) => |entries|
    case _ => 0
  }

  function Kid(v: Data, i: nat): (c: Data)
    requires i < Arity(v)
    ensures c < v
  {
    if v.DArray? then v.items[i] else v.entries[i].value
  }

  predicate SupportedScalar(v: Data)
  {
    !v.IsContainer() && v != DNonFinite && v != DOther
  }

  predicate TextKeys(v: Data)
  {
    v.DObject? ==> forall i :: 0 <= i < |v.entries| ==> v.entries[i].key.TextKey?
  }

  /** Finite scalars and text keys all the way down. */
  predicate Supported(v: Data)
    decreases v
  {
    if v.IsContainer() then TextKeys(v) && forall i: nat :: i < Arity(v) ==> Supported(Kid(v, i))
    else SupportedScalar(v)
  }

  // ---------------------------------------------------------------- rendering

  /** `str` of a scalar and `str.isidentifier`, which the adapter takes from the language. */
  datatype Rendering = Rendering(text: Value -> string, identifier: string -> bool)

  function EscapeChar(c: char): string
  {
    if c == '\\' then "\\\\" else if c == '"' then "\\\"" else [c]
  }

  function Escape(s: string): string
  {
    if s == [] then [] else EscapeChar(s[0]) + Escape(s[1..])
  }

  function KeyPath(fmt: Rendering, path: string, key: string): string
  {
    if fmt.identifier(key) then path + "." + key else path + "[\"" + Escape(key) + "\"]"
  }

  function IndexPath(path: string, i: nat): string
  {
    path + "[" + Decimal(i) + "]"
  }

  function SlotPath(fmt: Rendering, v: Data, i: nat, path: string): string
    requires i < Arity(v)
  {
    if v.DArray? then IndexPath(path, i)
    else match v.entries[i].key
      case TextKey(text) => KeyPath(fmt, path, text)
      case OtherKey => path
  }

  lemma {:induction false} EscapeInjective(a: string, b: string)
    ensures Escape(a) == Escape(b) ==> a == b
  {
    if a != [] && b != [] && Escape(a) == Escape(b) {
      var x, y := EscapeChar(a[0]), EscapeChar(b[0]);
      assert Escape(a) == x + Escape(a[1..]) && Escape(b) == y + Escape(b[1..]);
      assert x[0] == Escape(a)[0] == y[0];
      assert |x| == |y|;
      assert x == Escape(a)[..|x|] == y;
      assert Escape(a[1..]) == Escape(a)[|x|..] == Escape(b[1..]);
      EscapeInjective(a[1..], b[1..]);
      assert a == [a[0]] + a[1..] && b == [b[0]] + b[1..];
    }
  }

  /** Members of one container have different paths: escaping never merges two keys. */
  lemma SlotPathsDistinct(fmt: Rendering, v: Data, i: nat, j: nat, path: string)
    requires i < Arity(v) && j < Arity(v) && TextKeys(v)
    requires v.DObject? ==> v.entries[i].key != v.entries[j].key
    requires v.DArray? ==> i != j
    ensures SlotPath(fmt, v, i, path) != SlotPath(fmt, v, j, path)
  {
    if v.DArray? {
      IndexPathInjective(path, i, j);
    } else {
      KeyPathInjective(fmt, path, v.entries[i].key.text, v.entries[j].key.text);
    }
  }

  lemma IndexPathInjective(path: string, i: nat, j: nat)
    ensures IndexPath(path, i) == IndexPath(path, j) ==> i == j
  {
    var a, b := IndexPath(path, i), IndexPath(path, j);
    if a == b {
      assert Decimal(i) == a[|path| + 1..|a| - 1] == b[|path| + 1..|b| - 1] == Decimal(j);
      DecimalInjective(i, j);
    }
  }

  lemma KeyPathInjective(fmt: Rendering, path: string, a: string, b: string)
    ensures KeyPath(fmt, path, a) == KeyPath(fmt, path, b) ==> a == b
  {
    var x, y := KeyPath(fmt, path, a), KeyPath(fmt, path, b);
    if x == y {
      assert x[|path|] == if fmt.identifier(a) then '.' else '[';
      assert y[|path|] == if fmt.identifier(b) then '.' else '[';
      if fmt.identifier(a) {
        assert a == x[|path| + 1..] == y[|path| + 1..] == b;
      } else {
        assert Escape(a) == x[|path| + 2..|x| - 2] == y[|path| + 2..|y| - 2] == Escape(b);
        EscapeInjective(a, b);
      }
    }
  }

  function ScalarValue(v: Data): Value
  {
    match v
    case DBool(b) => VBool(b)
    case DInt(i) => VInt(i)
    case DReal(r) => VReal(r)
    case DStr(s) => VStr(s)
    case _ => VNull
  }

  function ScalarType(v: Data): string
  {
    match v
    case DNull => "data:null"
    case DBool(_) => "data:boolean"
    case DStr(_) => "data:string"
    case _ => "data:number"
  }

  function ScalarContent(fmt: Rendering, v: Data): Properties
  {
    var c := ScalarValue(v);
    if c == VNull then map["value" := c] else map["value" := c, "text" := VStr(fmt.text(c))]
  }

  // ---------------------------------------------------------------- the nodes of a value

  /** The node a value gets for itself, at position `p`. */
  function OwnNode(fmt: Rendering, v: Data, p: Position, path: string): Node
    requires p != []
  {
    var parent := Some(Ref(Front(p)));
    match v
    case DArray(items) => Node("data:array", parent, ChildRefs(p, |items|), map[], map[], map[], Some(path))
    case DObject(entries) => Node("data:object", parent, ChildRefs(p, |entries|), map[], map[], map[], Some(path))
    case _ => Node(ScalarType(v), parent, [], map[], ScalarContent(fmt, v), map[], Some(path))
  }

  /** The property or item node for the i-th member, which holds a scalar member itself. */
  function SlotNode(fmt: Rendering, v: Data, i: nat, p: Position, path: string): Node
    requires i < Arity(v)
  {
    var inner := Kid(v, i);
    var children := if inner.IsContainer() then [Ref(p + [i, 0])] else [];
    var content := if inner.IsContainer() then map[] else ScalarContent(fmt, inner);
    var at := Some(SlotPath(fmt, v, i, path));
    if v.DArray? then Node("data:item", Some(Ref(p)), children, map[], content, map["index" := VInt(i)], at)
    else match v.entries[i].key
      case TextKey(text) =>
        Node("data:property", Some(Ref(p)), children, map["key" := VStr(text)], content, map["key" := VStr(text)], at)
      case OtherKey => Node("data:property", Some(Ref(p)), children, map[], content, map[], at)
  }

  type Nodes = map<NodeRef, Node>

  /** The first `k` parts put together. */
  function Union(parts: nat -> Nodes, k: nat): Nodes
  {
    if k == 0 then map[] else Union(parts, k - 1) + parts(k - 1)
  }

  /** Every node of the subtree of `v` at position `p`. */
  function Subtree(fmt: Rendering, v: Data, p: Position, path: string): Nodes
    requires p != []
    decreases v, 2
  {
    map[Ref(p) := OwnNode(fmt, v, p, path)] + Union(Slots(fmt, v, p, path), Arity(v))
  }

  /** The nodes of each member. */
  function Slots(fmt: Rendering, v: Data, p: Position, path: string): nat -> Nodes
    requires p != []
    decreases v, 1
  {
    (i: nat) => if i < Arity(v) then Slot(fmt, v, i, p, path) else map[]
  }

  function Slot(fmt: Rendering, v: Data, i: nat, p: Position, path: string): Nodes
    requires p != [] && i < Arity(v)
    decreases v, 0
  {
    map[Ref(p + [i]) := SlotNode(fmt, v, i, p, path)] +
    if Kid(v, i).IsContainer() then Subtree(fmt, Kid(v, i), p + [i, 0], SlotPath(fmt, v, i, path)) else map[]
  }

  function DocumentNode(format: string): Node
  {
    Node("data:document", None, [Ref([0])], map[], map[], map["format" := VStr(format)], Some("$"))
  }

  function Adapted(fmt: Rendering, v: Data, format: string): Tree
  {
    Tree("n", map["n" := DocumentNode(format)] + Subtree(fmt, v, [0], "$"))
  }

  // ---------------------------------------------------------------- the builder

  datatype AdaptationError = NonFiniteNumber | UnsupportedScalar | NonTextKey

  /** Something in the value is at fault: a key that is no text, a number that is not finite, or another scalar. */
  ghost predicate Blames(e: AdaptationError, v: Data)
    decreases v
  {
    match v
    case DObject(entries) =>
      (e == NonTextKey && exists i: nat :: i < |entries| && entries[i].key == OtherKey) ||
      exists i: nat :: i < |entries| && Blames(e, entries[i].value)
    case DArray(items) => exists i: nat :: i < |items| && Blames(e, items[i])
    case DNonFinite => e == NonFiniteNumber
    case DOther => e == UnsupportedScalar
    case _ => false
  }

  lemma KidIsBlamed(e: AdaptationError, v: Data, i: nat)
    requires i < Arity(v) && Blames(e, Kid(v, i))
    ensures Blames(e, v)
  {
  }

  function ScalarError(v: Data): (e: Option<AdaptationError>)
    ensures !v.IsContainer() ==> (e == None <==> Supported(v))
    ensures e.Some? ==> Blames(e.value, v)
  {
    match v
    case DNonFinite => Some(NonFiniteNumber)
    case DOther => Some(UnsupportedScalar)
    case _ => None
  }

  lemma UnionAssociates(a: Nodes, b: Nodes, c: Nodes)
    ensures a + b + c == a + (b + c)
  {
  }

  lemma SlotsGrow(fmt: Rendering, v: Data, i: nat, p: Position, path: string, start: Nodes)
    requires p != [] && i < Arity(v)
    ensures start + Union(Slots(fmt, v, p, path), i) + Slot(fmt, v, i, p, path) ==
      start + Union(Slots(fmt, v, p, path), i + 1)
  {
    UnionAssociates(start, Union(Slots(fmt, v, p, path), i), Slot(fmt, v, i, p, path));
  }

  ghost predicate MembersSupported(v: Data, k: nat)
  {
    k <= Arity(v) && forall i: nat :: i < k ==> Supported(Kid(v, i))
  }

  lemma SlotsDone(v: Data)
    requires v.IsContainer() && TextKeys(v)
    ensures Supported(v) <==> MembersSupported(v, Arity(v))
  {
  }

  class Builder {
    const fmt: Rendering
    var nodes: Nodes

    constructor (fmt: Rendering)
      ensures this.fmt == fmt && nodes == map[]
    {
      this.fmt := fmt;
      nodes := map[];
    }

    /** `_build_value`: a container, or a leaf for a supported scalar. */
    method BuildValue(v: Data, ref: NodeRef, parent: NodeRef, path: string, ghost p: Position)
      returns (error: Option<AdaptationError>)
      requires p != [] && ref == Ref(p) && parent == Ref(Front(p))
      modifies this`nodes
      ensures error == None <==> Supported(v)
      ensures error.Some? ==> Blames(error.value, v)
      ensures error == None ==> nodes == old(nodes) + Subtree(fmt, v, p, path)
      decreases v, Arity(v) + 2
    {
      if v.DObject? {
        error := BuildObject(v, ref, parent, path, p);
      } else if v.DArray? {
        error := BuildArray(v, ref, parent, path, p);
      } else {
        error := ScalarError(v);
        if error == None {
          nodes := nodes[ref := Node(ScalarType(v), Some(parent), [], map[], ScalarContent(fmt, v), map[], Some(path))];
        }
      }
    }

    /** `f"{ref}.{index}" for index in range(n)`. */
    method RefsBelow(ref: NodeRef, n: nat, ghost p: Position) returns (refs: seq<NodeRef>)
      requires ref == Ref(p)
      ensures refs == ChildRefs(p, n)
    {
      refs := [];
      for i := 0 to n
        invariant refs == ChildRefs(p, i)
      {
        RefOfChild(p, i);
        refs := refs + [ref + "." + Decimal(i)];
      }
    }

    method BuildObject(v: Data, ref: NodeRef, parent: NodeRef, path: string, ghost p: Position)
      returns (error: Option<AdaptationError>)
      requires v.DObject? && p != [] && ref == Ref(p) && parent == Ref(Front(p))
      modifies this`nodes
      ensures error == None <==> Supported(v)
      ensures error.Some? ==> Blames(error.value, v)
      ensures error == None ==> nodes == old(nodes) + Subtree(fmt, v, p, path)
      decreases v, Arity(v) + 1
    {
      for i := 0 to |v.entries|
        invariant forall k :: 0 <= k < i ==> v.entries[k].key.TextKey?
      {
        if v.entries[i].key.OtherKey? {
          return Some(NonTextKey);
        }
      }
      var refs := RefsBelow(ref, |v.entries|, p);
      ghost var own := map[Ref(p) := OwnNode(fmt, v, p, path)];
      ghost var before := nodes;
      nodes := nodes[ref := Node("data:object", Some(parent), refs, map[], map[], map[], Some(path))];
      assert nodes == before + own;
      error := BuildSlots(v, ref, path, p);
      SlotsDone(v);
      if error == None { UnionAssociates(before, own, Union(Slots(fmt, v, p, path), Arity(v))); }
    }

    method BuildArray(v: Data, ref: NodeRef, parent: NodeRef, path: string, ghost p: Position)
      returns (error: Option<AdaptationError>)
      requires v.DArray? && p != [] && ref == Ref(p) && parent == Ref(Front(p))
      modifies this`nodes
      ensures error == None <==> Supported(v)
      ensures error.Some? ==> Blames(error.value, v)
      ensures error == None ==> nodes == old(nodes) + Subtree(fmt, v, p, path)
      decreases v, Arity(v) + 1
    {
      var refs := RefsBelow(ref, |v.items|, p);
      ghost var own := map[Ref(p) := OwnNode(fmt, v, p, path)];
      ghost var before := nodes;
      nodes := nodes[ref := Node("data:array", Some(parent), refs, map[], map[], map[], Some(path))];
      assert nodes == before + own;
      error := BuildSlots(v, ref, path, p);
      SlotsDone(v);
      if error == None { UnionAssociates(before, own, Union(Slots(fmt, v, p, path), Arity(v))); }
    }

    /** The loop over the members of a container. */
    method BuildSlots(v: Data, ref: NodeRef, path: string, ghost p: Position) returns (error: Option<AdaptationError>)
      requires v.IsContainer() && TextKeys(v) && p != [] && ref == Ref(p)
      modifies this`nodes
      ensures error == None <==> MembersSupported(v, Arity(v))
      ensures error.Some? ==> Blames(error.value, v)
      ensures error == None ==> nodes == old(nodes) + Union(Slots(fmt, v, p, path), Arity(v))
      decreases v, Arity(v)
    {
      error := None;
      for i := 0 to Arity(v)
        invariant nodes == old(nodes) + Union(Slots(fmt, v, p, path), i)
        invariant error == None && MembersSupported(v, i)
      {
        error := BuildSlot(v, i, ref, path, p);
        if error != None {
          KidIsBlamed(error.value, v, i);
          return;
        }
        SlotsGrow(fmt, v, i, p, path, old(nodes));
      }
    }

    /** The property or item node for one member. */
    method MakeSlot(v: Data, i: nat, ref: NodeRef, path: string, ghost p: Position) returns (slot: Node)
      requires i < Arity(v) && TextKeys(v) && ref == Ref(p)
      ensures slot == SlotNode(fmt, v, i, p, path)
    {
      var inner := Kid(v, i);
      SlotRefs(p, i);
      var children := if inner.IsContainer() then [ref + "." + Decimal(i) + "." + Decimal(0)] else [];
      var content := if inner.IsContainer() then map[] else ScalarContent(fmt, inner);
      var at := Some(SlotPath(fmt, v, i, path));
      if v.DArray? {
        slot := Node("data:item", Some(ref), children, map[], content, map["index" := VInt(i)], at);
      } else {
        var key := VStr(v.entries[i].key.text);
        slot := Node("data:property", Some(ref), children, map["key" := key], content, map["key" := key], at);
      }
    }

    /** A property or item node, then what is inside it. */
    method BuildSlot(v: Data, i: nat, ref: NodeRef, path: string, ghost p: Position)
      returns (error: Option<AdaptationError>)
      requires i < Arity(v) && TextKeys(v) && p != [] && ref == Ref(p)
      modifies this`nodes
      ensures error == None <==> Supported(Kid(v, i))
      ensures error.Some? ==> Blames(error.value, Kid(v, i))
      ensures error == None ==> nodes == old(nodes) + Slot(fmt, v, i, p, path)
      decreases v, 0
    {
      var inner := Kid(v, i);
      var slotRef := ref + "." + Decimal(i);
      SlotRefs(p, i);
      error := None;
      if !inner.IsContainer() {
        error := ScalarError(inner);
        if error != None {
          return;
        }
      }
      var slot := MakeSlot(v, i, ref, path, p);
      ghost var before := nodes;
      nodes := nodes[slotRef := slot];
      assert nodes == before + map[slotRef := slot];
      if inner.IsContainer() {
        var slotPath := SlotPath(fmt, v, i, path);
        error := BuildValue(inner, slotRef + "." + Decimal(0), slotRef, slotPath, p + [i, 0]);
        UnionAssociates(before, map[slotRef := slot], Subtree(fmt, inner, p + [i, 0], slotPath));
      }
    }
  }

  lemma SlotRefs(p: Position, i: nat)
    ensures Ref(p + [i]) == Ref(p) + "." + Decimal(i)
    ensures Ref(p + [i, 0]) == Ref(p + [i]) + "." + Decimal(0)
    ensures Front(p + [i, 0]) == p + [i]
  {
    RefOfChild(p, i);
    RefOfChild(p + [i], 0);
    assert p + [i] + [0] == p + [i, 0];
  }

  /** `adapt`: succeeds exactly on supported values. */
  method Adapt(fmt: Rendering, v: Data, format: string) returns (r: Result<Tree, AdaptationError>)
    ensures r.Ok? <==> Supported(v)
    ensures r.Err? ==> Blames(r.error, v)
    ensures r.Ok? ==> r.value == Adapted(fmt, v, format)
  {
    var builder := new Builder(fmt);
    RefOfChild([], 0);
    builder.nodes :=
      map["n" := Node("data:document", None, ["n.0"], map[], map[], map["format" := VStr(format)], Some("$"))];
    assert Ref([0]) == "n.0" by {
      assert [] + [0] == [0] && Decimal(0) == "0";
    }
    var error := builder.BuildValue(v, "n.0", "n", "$", [0]);
    r := match error
      case None => Ok(Tree("n", builder.nodes))
      case Some(e) => Err(e);
  }
}
