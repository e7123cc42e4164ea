/** The canonical tree contract: a node map with a root, child lists and parent links. */
module Trees {
  import opened Options
  import opened Ordering

  // ---------------------------------------------------------------- property values

  /** The JSON-like value space of canonical properties; floats are reals. */
  datatype Value =
    | VNull
    | VBool(b: bool)
    | VInt(i: int)
    | VReal(r: real)
    | VStr(s: string)
    | VList(items: seq<Value>)
    | VDict(entries: map<string, Value>)

  /** Python compares booleans, integers and floats as numbers: True == 1 == 1.0. */
  function Numeric(v: Value): Value
  {
    match v
    case VBool(b) => VReal(if b then 1.0 else 0.0)
    case VInt(i) => VReal(i as real)
    case VList(items) => VList(seq(|items|, k requires 0 <= k < |items| => Numeric(items[k])))
    case VDict(entries) => VDict(map key | key in entries :: Numeric(entries[key]))
    case _ => v
  }

  type Properties = map<string, Value>

  /** Python's `==` on property dictionaries. */
  predicate SameProperties(a: Properties, b: Properties)
  {
    a.Keys == b.Keys && forall key :: key in a ==> Numeric(a[key]) == Numeric(b[key])
  }

  // ---------------------------------------------------------------- nodes and trees

  datatype Node = Node(
    nodeType: string,
    parent: Option<NodeRef>,
    children: seq<NodeRef>,
    identity: Properties,
    content: Properties,
    structural: Properties,
    xpath: Option<string>)

  datatype Tree = Tree(root: NodeRef, nodes: map<NodeRef, Node>)
  {
    /** What the tree and node constructors already reject (everything but the links). */
    ghost predicate Constructed()
    {
      root in nodes && nodes[root].parent == None &&
      forall n :: n in nodes ==>
        Distinct(nodes[n].children) && n !in nodes[n].children && nodes[n].parent != Some(n)
    }

    /** The links of `n` resolve and agree with the links of its neighbours. */
    ghost predicate LinksAt(n: NodeRef)
      requires n in nodes
    {
      (forall c :: c in nodes[n].children ==> c in nodes && nodes[c].parent == Some(n)) &&
      (match nodes[n].parent
       case None => n == root
       case Some(p) => p in nodes && n in nodes[p].children)
    }

    ghost predicate LinksAgree()
    {
      forall n {:trigger LinksAt(n)} :: n in nodes ==> LinksAt(n)
    }

    /** The k-th node on the parent walk from `n`. */
    function Up(n: NodeRef, k: nat): Option<NodeRef>
      decreases k
    {
      if k == 0 then Some(n)
      else if n !in nodes || nodes[n].parent == None then None
      else Up(nodes[n].parent.value, k - 1)
    }

    /** The parent walk from `n` comes back to a node it has seen. */
    ghost predicate WalkRepeats(n: NodeRef)
    {
      exists i: nat, j: nat :: i < j && Up(n, i).Some? && Up(n, i) == Up(n, j)
    }

    ghost predicate Anchored(n: NodeRef)
    {
      exists k: nat :: Up(n, k) == Some(root)
    }

    /** A tree every later stage may rely on. */
    ghost predicate Valid()
    {
      Constructed() && LinksAgree() && forall n :: n in nodes ==> Anchored(n)
    }

    /** `a` is `n` or one of its ancestors. */
    ghost predicate AtOrBelow(n: NodeRef, a: NodeRef)
    {
      exists k: nat :: Up(n, k) == Some(a)
    }

    ghost predicate StrictlyBelow(n: NodeRef, a: NodeRef)
    {
      exists k: nat :: k > 0 && Up(n, k) == Some(a)
    }

    // ------------------------------------------------------------ the graph view

    /** `p` follows child links from the root. */
    ghost predicate ChildPath(p: seq<NodeRef>)
    {
      p != [] && p[0] == root && (forall i :: 0 <= i < |p| ==> p[i] in nodes) &&
      forall i :: 0 <= i < |p| - 1 ==> p[i + 1] in nodes[p[i]].children
    }

    ghost predicate ChildPathTo(p: seq<NodeRef>, n: NodeRef)
    {
      ChildPath(p) && p[|p| - 1] == n
    }

    /** The textbook definition: one child-link path from the root to every node. */
    ghost predicate RootedTree()
    {
      (forall n, c :: n in nodes && c in nodes[n].children ==> c in nodes) &&
      (forall n :: n in nodes ==> exists p :: ChildPathTo(p, n)) &&
      (forall n, p, q :: ChildPathTo(p, n) && ChildPathTo(q, n) ==> p == q) &&
      (forall n, a :: n in nodes ==>
        (nodes[n].parent == Some(a) <==> a in nodes && n in nodes[a].children))
    }
  }

  /** Children of a node are the nodes whose parent it is. */
  lemma ChildIffParent(t: Tree, n: NodeRef, p: NodeRef)
    requires t.Valid() && p in t.nodes
    ensures n in t.nodes[p].children <==> n in t.nodes && t.nodes[n].parent == Some(p)
  {
    assert t.LinksAt(p);
    if n in t.nodes { assert t.LinksAt(n); }
  }

  /** The same nodes with the same links and types; content and identity may differ. */
  ghost predicate SameShape(a: Tree, b: Tree)
  {
    a.root == b.root && a.nodes.Keys == b.nodes.Keys &&
    forall n :: n in a.nodes ==>
      a.nodes[n].nodeType == b.nodes[n].nodeType && a.nodes[n].parent == b.nodes[n].parent &&
      a.nodes[n].children == b.nodes[n].children
  }

  // ---------------------------------------------------------------- walking up

  lemma {:induction false} UpAdd(t: Tree, n: NodeRef, i: nat, j: nat)
    requires t.Up(n, i).Some?
    ensures t.Up(n, i + j) == t.Up(t.Up(n, i).value, j)
    decreases i
  {
    if i > 0 {
      UpAdd(t, t.nodes[n].parent.value, i - 1, j);
    }
  }

  lemma UpSucc(t: Tree, n: NodeRef, k: nat)
    requires t.Up(n, k).Some?
    ensures t.Up(n, k + 1) ==
      var m := t.Up(n, k).value;
      if m in t.nodes then t.nodes[m].parent else None
  {
    UpAdd(t, n, k, 1);
    assert t.Up(t.Up(n, k).value, 1) == t.Up(t.Up(n, k).value, 1);
  }

  lemma {:induction false} UpStaysNone(t: Tree, n: NodeRef, i: nat, j: nat)
    requires t.Up(n, i) == None && i <= j
    ensures t.Up(n, j) == None
    decreases i
  {
    if i > 0 && n in t.nodes && t.nodes[n].parent.Some? {
      UpStaysNone(t, t.nodes[n].parent.value, i - 1, j - 1);
    }
  }

  lemma {:induction false} UpInNodes(t: Tree, n: NodeRef, k: nat)
    requires t.LinksAgree() && n in t.nodes && t.Up(n, k).Some?
    ensures t.Up(n, k).value in t.nodes
    decreases k
  {
    assert t.LinksAt(n);
    if k > 0 {
      UpInNodes(t, t.nodes[n].parent.value, k - 1);
    }
  }

  lemma BeyondRoot(t: Tree, n: NodeRef, i: nat, j: nat)
    requires t.Constructed()
    requires t.Up(n, i) == Some(t.root) && i < j
    ensures t.Up(n, j) == None
  {
    UpAdd(t, n, i, j - i);
    UpStaysNone(t, t.root, 1, j - i);
  }

  /** The distance to the root is a function of the node. */
  lemma LevelUnique(t: Tree, n: NodeRef, i: nat, j: nat)
    requires t.Constructed()
    requires t.Up(n, i) == Some(t.root) && t.Up(n, j) == Some(t.root)
    ensures i == j
  {
    if i < j {
      BeyondRoot(t, n, i, j);
    } else if j < i {
      BeyondRoot(t, n, j, i);
    }
  }

  /** Distance from the root, by the parent walk. */
  ghost function Level(t: Tree, n: NodeRef): (k: nat)
    requires t.Valid() && n in t.nodes
    ensures t.Up(n, k) == Some(t.root)
  {
    assert t.Anchored(n);
    var k: nat :| t.Up(n, k) == Some(t.root);
    k
  }

  lemma LevelOfParent(t: Tree, n: NodeRef)
    requires t.Valid() && n in t.nodes
    ensures n == t.root <==> Level(t, n) == 0
    ensures n != t.root ==> t.nodes[n].parent.Some? && t.nodes[n].parent.value in t.nodes
    ensures n != t.root ==> Level(t, n) == Level(t, t.nodes[n].parent.value) + 1
  {
    assert t.LinksAt(n);
    if n == t.root {
      assert t.Up(n, 0) == Some(t.root);
      LevelUnique(t, n, 0, Level(t, n));
    } else {
      var p := t.nodes[n].parent.value;
      LevelUnique(t, n, Level(t, n), Level(t, p) + 1);
    }
  }

  /** The k-th ancestor is k levels higher, so nothing is strictly below itself. */
  lemma {:induction false} LevelOfUp(t: Tree, n: NodeRef, k: nat)
    requires t.Valid() && n in t.nodes && t.Up(n, k).Some?
    ensures t.Up(n, k).value in t.nodes
    ensures Level(t, n) == Level(t, t.Up(n, k).value) + k
    decreases k
  {
    if k > 0 {
      assert t.LinksAt(n);
      LevelOfParent(t, n);
      LevelOfUp(t, t.nodes[n].parent.value, k - 1);
    }
  }

  lemma NotBelowItself(t: Tree, n: NodeRef)
    requires t.Valid() && n in t.nodes
    ensures !t.StrictlyBelow(n, n)
  {
    forall k: nat | k > 0 && t.Up(n, k) == Some(n)
      ensures false
    {
      LevelOfUp(t, n, k);
    }
  }
}
