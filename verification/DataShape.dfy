/** What an adapted tree looks like node by node: types, keys, indexes, contents and paths. */
module DataShape {
  import opened Options
  import opened Ordering
  import opened Trees
  import opened DataRefs
  import opened DataTree
  import opened AdaptedTrees

  // ---------------------------------------------------------------- a node and its value

  /** The value in its canonical type, and its text unless it is null. */
  ghost predicate HoldsScalar(fmt: Rendering, content: Properties, v: Data)
  {
    match v
    case DNull => content == map["value" := VNull]
    case DBool(b) => HoldsText(fmt, content, VBool(b))
    case DInt(i) => HoldsText(fmt, content, VInt(i))
    case DReal(r) => HoldsText(fmt, content, VReal(r))
    case DStr(s) => HoldsText(fmt, content, VStr(s))
    case _ => false
  }

  ghost predicate HoldsText(fmt: Rendering, content: Properties, value: Value)
  {
    content == map["value" := value, "text" := VStr(fmt.text(value))]
  }

  ghost predicate IsScalarType(nodeType: string, v: Data)
  {
    match v
    case DNull => nodeType == "data:null"
    case DBool(_) => nodeType == "data:boolean"
    case DStr(_) => nodeType == "data:string"
    case DInt(_) => nodeType == "data:number"
    case DReal(_) => nodeType == "data:number"
    case _ => false
  }

  /**
   * The node `n` stands for the value: an array of items with their indexes, an object of properties with
   * their keys, or a typed scalar, with paths that extend the path of the parent.
   */
  ghost predicate Represents(fmt: Rendering, t: Tree, n: NodeRef, v: Data, path: string)
    decreases v, 1
  {
    n in t.nodes && t.nodes[n].xpath == Some(path) && t.nodes[n].identity == map[] && t.nodes[n].structural == map[] &&
    match v
    case DArray(items) =>
      t.nodes[n].nodeType == "data:array" && t.nodes[n].content == map[] && |t.nodes[n].children| == |items| &&
      forall i: nat :: i < |items| ==> IsItem(t, n, i) && HoldsMember(fmt, t, n, i, items[i], ItemPath(path, i))
    case DObject(entries) =>
      t.nodes[n].nodeType == "data:object" && t.nodes[n].content == map[] && |t.nodes[n].children| == |entries| &&
      forall i: nat :: i < |entries| ==>
        entries[i].key.TextKey? && IsProperty(t, n, i, entries[i].key.text) &&
        HoldsMember(fmt, t, n, i, entries[i].value, PropertyPath(fmt, path, entries[i].key.text))
    case _ =>
      t.nodes[n].children == [] && IsScalarType(t.nodes[n].nodeType, v) && HoldsScalar(fmt, t.nodes[n].content, v)
  }

  ghost function ItemPath(path: string, i: nat): string
  {
    path + "[" + Decimal(i) + "]"
  }

  ghost function PropertyPath(fmt: Rendering, path: string, key: string): string
  {
    if fmt.identifier(key) then path + "." + key else path + "[\"" + Escape(key) + "\"]"
  }

  ghost predicate IsItem(t: Tree, n: NodeRef, i: nat)
    requires n in t.nodes
  {
    i < |t.nodes[n].children| && t.nodes[n].children[i] in t.nodes &&
    var c := t.nodes[t.nodes[n].children[i]];
    c.nodeType == "data:item" && c.identity == map[] && c.structural == map["index" := VInt(i)]
  }

  ghost predicate IsProperty(t: Tree, n: NodeRef, i: nat, key: string)
    requires n in t.nodes
  {
    i < |t.nodes[n].children| && t.nodes[n].children[i] in t.nodes &&
    var c := t.nodes[t.nodes[n].children[i]];
    c.nodeType == "data:property" && c.identity == map["key" := VStr(key)] && c.structural == map["key" := VStr(key)]
  }

  /** The i-th child holds a scalar itself, or has one child for a container. */
  ghost predicate HoldsMember(fmt: Rendering, t: Tree, n: NodeRef, i: nat, v: Data, path: string)
    requires n in t.nodes
    decreases v, 2
  {
    i < |t.nodes[n].children| && t.nodes[n].children[i] in t.nodes &&
    var c := t.nodes[t.nodes[n].children[i]];
    c.parent == Some(n) && c.xpath == Some(path) &&
    if v.IsContainer() then
      c.content == map[] && |c.children| == 1 && c.children[0] in t.nodes &&
      t.nodes[c.children[0]].parent == Some(t.nodes[n].children[i]) && Represents(fmt, t, c.children[0], v, path)
    else c.children == [] && HoldsScalar(fmt, c.content, v)
  }

  // ---------------------------------------------------------------- paths can be read back

  /** A key up to the first quote without a backslash in front, and what follows the quote. */
  function ReadQuoted(s: string): Option<(string, string)>
  {
    if s == "" || s == "\\" then None
    else if s[0] == '"' then Some(("", s[1..]))
    else
      var skip := if s[0] == '\\' then 1 else 0;
      match ReadQuoted(s[skip + 1..])
      case None => None
      case Some((key, rest)) => Some(([s[skip]] + key, rest))
  }

  lemma EscapedCharReads(c: char, more: string, s: string)
    requires s == EscapeChar(c) + more
    ensures ReadQuoted(s) ==
      match ReadQuoted(more)
      case None => None
      case Some((key, rest)) => Some(([c] + key, rest))
  {
    assert s[|EscapeChar(c)|..] == more && s[|EscapeChar(c)| - 1] == c;
  }

  /** A quoted key never ends early and never swallows what follows it. */
  lemma {:induction false} QuotedKeyReadsBack(key: string, rest: string)
    ensures ReadQuoted(Escape(key) + "\"" + rest) == Some((key, rest))
  {
    if key == "" {
      assert (Escape(key) + "\"" + rest)[1..] == rest;
    } else {
      var more := Escape(key[1..]) + "\"" + rest;
      QuotedKeyReadsBack(key[1..], rest);
      assert Escape(key) + "\"" + rest == EscapeChar(key[0]) + more;
      EscapedCharReads(key[0], more, Escape(key) + "\"" + rest);
      assert key == [key[0]] + key[1..];
    }
  }

  function ReadDecimal(s: string): int
  {
    if s == "" then 0 else 10 * ReadDecimal(Front(s)) + (Last(s) as int - '0' as int)
  }

  /** An index is written with decimal digits that read back as the index, without a leading zero. */
  lemma {:induction false} DecimalReadsBack(n: nat)
    ensures forall i :: 0 <= i < |Decimal(n)| ==> '0' <= Decimal(n)[i] <= '9'
    ensures ReadDecimal(Decimal(n)) == n && (n > 0 ==> Decimal(n)[0] != '0')
  {
    DigitReadsBack(n % 10);
    if n >= 10 {
      DecimalReadsBack(n / 10);
      assert Front(Decimal(n)) == Decimal(n / 10);
    } else {
      assert Front(Decimal(n)) == "";
    }
  }

  lemma DigitReadsBack(d: nat)
    requires d < 10
    ensures Digit(d) as int == '0' as int + d
  {
  }

  // ---------------------------------------------------------------- adapted trees represent their values

  lemma ScalarHeld(fmt: Rendering, v: Data)
    requires SupportedScalar(v)
    ensures HoldsScalar(fmt, ScalarContent(fmt, v), v) && IsScalarType(ScalarType(v), v)
  {
  }

  lemma {:induction false} SubtreeRepresents(fmt: Rendering, v: Data, p: Position, path: string, t: Tree)
    requires p != [] && Supported(v) && Part(Subtree(fmt, v, p, path), t.nodes)
    ensures Represents(fmt, t, Ref(p), v, path)
    decreases v, 1
  {
    SubtreeHolds(fmt, v, p, path, t.nodes);
    if v.DArray? {
      forall i: nat | i < |v.items|
        ensures IsItem(t, Ref(p), i) && HoldsMember(fmt, t, Ref(p), i, v.items[i], ItemPath(path, i))
      {
        MemberRepresents(fmt, v, i, p, path, t);
      }
    } else if v.DObject? {
      forall i: nat | i < |v.entries|
        ensures IsProperty(t, Ref(p), i, v.entries[i].key.text)
        ensures HoldsMember(fmt, t, Ref(p), i, v.entries[i].value, PropertyPath(fmt, path, v.entries[i].key.text))
      {
        MemberRepresents(fmt, v, i, p, path, t);
      }
    } else {
      ScalarHeld(fmt, v);
    }
  }

  ghost predicate MemberRepresented(fmt: Rendering, t: Tree, v: Data, i: nat, p: Position, path: string)
    requires i < Arity(v) && TextKeys(v)
  {
    Ref(p) in t.nodes &&
    (v.DArray? ==> IsItem(t, Ref(p), i) && HoldsMember(fmt, t, Ref(p), i, v.items[i], ItemPath(path, i))) &&
    (v.DObject? ==>
      IsProperty(t, Ref(p), i, v.entries[i].key.text) &&
      HoldsMember(fmt, t, Ref(p), i, v.entries[i].value, PropertyPath(fmt, path, v.entries[i].key.text)))
  }

  lemma {:induction false} MemberRepresents(fmt: Rendering, v: Data, i: nat, p: Position, path: string, t: Tree)
    requires p != [] && v.IsContainer() && Supported(v) && i < Arity(v) && Holds(fmt, v, p, path, t.nodes)
    ensures MemberRepresented(fmt, t, v, i, p, path)
    decreases v, 0
  {
    assert HoldsSlot(fmt, v, i, p, path, t.nodes);
    assert t.nodes[Ref(p)].children[i] == Ref(p + [i]);
    if Kid(v, i).IsContainer() {
      SubtreeRepresents(fmt, Kid(v, i), p + [i, 0], SlotPath(fmt, v, i, path), t);
      SubtreeHolds(fmt, Kid(v, i), p + [i, 0], SlotPath(fmt, v, i, path), t.nodes);
      assert Front(p + [i, 0]) == p + [i];
    } else {
      ScalarHeld(fmt, Kid(v, i));
    }
  }

  /** The document node over the node that stands for the value. */
  ghost predicate IsDocument(fmt: Rendering, t: Tree, v: Data, format: string)
  {
    t.root in t.nodes &&
    var root := t.nodes[t.root];
    root.nodeType == "data:document" && root.identity == map[] && root.content == map[] &&
    root.structural == map["format" := VStr(format)] && root.xpath == Some("$") && |root.children| == 1 &&
    Represents(fmt, t, root.children[0], v, "$")
  }

  /** Every adapted tree is the document of its value. */
  lemma AdaptedRepresents(fmt: Rendering, v: Data, format: string)
    requires Supported(v)
    ensures IsDocument(fmt, Adapted(fmt, v, format), v, format)
  {
    RootKept(fmt, v, format);
    SubtreeRepresents(fmt, v, [0], "$", Adapted(fmt, v, format));
  }

  // ---------------------------------------------------------------- every node of an adapted tree

  /** A content holds a value, and the text of the value exactly if it is not null. */
  ghost predicate IsContent(fmt: Rendering, content: Properties)
  {
    "value" in content && content.Keys <= {"value", "text"} &&
    ("text" in content <==> content["value"] != VNull) &&
    ("text" in content ==> content["text"] == VStr(fmt.text(content["value"])))
  }

  ghost predicate HasKey(t: Tree, n: NodeRef, i: nat)
    requires n in t.nodes
  {
    exists key :: IsProperty(t, n, i, key)
  }

  /** The laws of one node, by its type. */
  ghost predicate Regular(fmt: Rendering, t: Tree, n: NodeRef)
  {
    n in t.nodes &&
    var node := t.nodes[n];
    (node.content == map[] || IsContent(fmt, node.content)) &&
    match node.nodeType
    case "data:array" => node.content == map[] && forall i: nat :: i < |node.children| ==> IsItem(t, n, i)
    case "data:object" =>
      node.content == map[] && forall i: nat :: i < |node.children| ==> HasKey(t, n, i)
    case "data:item" => node.content == map[] <==> |node.children| == 1
    case "data:property" => node.content == map[] <==> |node.children| == 1
    case "data:null" => "value" in node.content && node.content["value"] == VNull
    case "data:boolean" => "value" in node.content && node.content["value"].VBool?
    case "data:string" => "value" in node.content && node.content["value"].VStr?
    case "data:number" => "value" in node.content && (node.content["value"].VInt? || node.content["value"].VReal?)
    case _ => false
  }

  ghost predicate AllRegular(fmt: Rendering, t: Tree, part: Nodes)
  {
    forall n :: n in part ==> Regular(fmt, t, n)
  }

  lemma OwnIsRegular(fmt: Rendering, v: Data, p: Position, path: string, t: Tree)
    requires p != [] && Supported(v) && Represents(fmt, t, Ref(p), v, path)
    ensures Regular(fmt, t, Ref(p))
  {
    if v.DObject? {
      forall i: nat | i < |v.entries|
        ensures HasKey(t, Ref(p), i)
      {
        assert IsProperty(t, Ref(p), i, v.entries[i].key.text);
      }
    }
  }

  lemma {:induction false} SubtreeIsRegular(fmt: Rendering, v: Data, p: Position, path: string, t: Tree)
    requires p != [] && Supported(v) && Part(Subtree(fmt, v, p, path), t.nodes)
    ensures AllRegular(fmt, t, Subtree(fmt, v, p, path))
    decreases v, 1
  {
    SubtreeRepresents(fmt, v, p, path, t);
    SubtreeHolds(fmt, v, p, path, t.nodes);
    OwnIsRegular(fmt, v, p, path, t);
    var parts := Slots(fmt, v, p, path);
    forall n | n in Union(parts, Arity(v))
      ensures Regular(fmt, t, n)
    {
      var i := PartOfKey(parts, Arity(v), n);
      SlotIsRegular(fmt, v, i, p, path, t);
    }
  }

  lemma {:induction false} SlotIsRegular(fmt: Rendering, v: Data, i: nat, p: Position, path: string, t: Tree)
    requires p != [] && Supported(v) && i < Arity(v) && Holds(fmt, v, p, path, t.nodes)
    ensures AllRegular(fmt, t, Slot(fmt, v, i, p, path))
    decreases v, 0
  {
    assert HoldsSlot(fmt, v, i, p, path, t.nodes);
    SlotNodeIsRegular(fmt, v, i, p, path, t);
    if Kid(v, i).IsContainer() { SubtreeIsRegular(fmt, Kid(v, i), p + [i, 0], SlotPath(fmt, v, i, path), t); }
  }

  lemma ScalarIsContent(fmt: Rendering, content: Properties, v: Data)
    requires HoldsScalar(fmt, content, v)
    ensures IsContent(fmt, content) && content != map[]
  {
    assert "value" in content;
  }

  lemma {:induction false} SlotNodeIsRegular(fmt: Rendering, v: Data, i: nat, p: Position, path: string, t: Tree)
    requires p != [] && Supported(v) && i < Arity(v) && HoldsSlot(fmt, v, i, p, path, t.nodes)
    ensures Regular(fmt, t, Ref(p + [i]))
  {
    var node := SlotNode(fmt, v, i, p, path);
    assert node.nodeType == if v.DArray? then "data:item" else "data:property";
    if !Kid(v, i).IsContainer() {
      ScalarHeld(fmt, Kid(v, i));
      ScalarIsContent(fmt, node.content, Kid(v, i));
    }
  }

  /**
   * In every adapted tree the children of an array are items with their index and no identity, the
   * children of an object are properties with one key, contents carry the text of their value, and a
   * scalar node has the type of its value.
   */
  lemma AdaptedIsRegular(fmt: Rendering, v: Data, format: string, n: NodeRef)
    requires Supported(v) && n in Adapted(fmt, v, format).nodes && n != Adapted(fmt, v, format).root
    ensures Regular(fmt, Adapted(fmt, v, format), n)
  {
    RootKept(fmt, v, format);
    SubtreeIsRegular(fmt, v, [0], "$", Adapted(fmt, v, format));
  }
}
