/** Content normalization: idempotent, exactly traced, and blind to structure. */
module Normalization {
  import opened Options
  import opened Ordering
  import opened Trees
  import opened Profiles
  import opened Evidence

  /** Which characters count as whitespace; the blank always does. */
  type Spaces = char -> bool

  // ---------------------------------------------------------------- text

  function DropSpaces(sp: Spaces, s: string): (r: string)
    ensures |r| <= |s| && (r != [] ==> !sp(r[0]))
    ensures s != [] && sp(s[0]) ==> |r| < |s|
    ensures s != [] && !sp(s[0]) ==> r == s
  {
    if s != [] && sp(s[0]) then DropSpaces(sp, s[1..]) else s
  }

  function DropSpacesAtEnd(sp: Spaces, s: string): (r: string)
    ensures r <= s && (r != [] ==> !sp(r[|r| - 1]))
  {
    if s != [] && sp(s[|s| - 1]) then DropSpacesAtEnd(sp, s[..|s| - 1]) else s
  }

  /** Each run of whitespace becomes one blank. */
  function Collapse(sp: Spaces, s: string): string
    decreases |s|
  {
    if s == [] then []
    else if sp(s[0]) then " " + Collapse(sp, DropSpaces(sp, s))
    else [s[0]] + Collapse(sp, s[1..])
  }

  function NormalizeText(sp: Spaces, s: string): string
  {
    DropSpacesAtEnd(sp, DropSpaces(sp, Collapse(sp, s)))
  }

  /** Whitespace occurs only as single blanks. */
  ghost predicate Tight(sp: Spaces, s: string)
  {
    forall i :: 0 <= i < |s| && sp(s[i]) ==> s[i] == ' ' && (i + 1 < |s| ==> !sp(s[i + 1]))
  }

  /** And never at either end. */
  ghost predicate Tidy(sp: Spaces, s: string)
  {
    Tight(sp, s) && (s != [] ==> !sp(s[0]) && !sp(s[|s| - 1]))
  }

  lemma {:induction false} CollapseIsTight(sp: Spaces, s: string)
    ensures Tight(sp, Collapse(sp, s))
    ensures s != [] && !sp(s[0]) ==> Collapse(sp, s) != [] && Collapse(sp, s)[0] == s[0]
    decreases |s|
  {
    if s == [] {
    } else if sp(s[0]) {
      CollapseIsTight(sp, DropSpaces(sp, s));
    } else {
      CollapseIsTight(sp, s[1..]);
    }
  }

  lemma {:induction false} DropSpacesIsSuffix(sp: Spaces, s: string)
    ensures exists k :: 0 <= k <= |s| && DropSpaces(sp, s) == s[k..]
  {
    if s != [] && sp(s[0]) {
      DropSpacesIsSuffix(sp, s[1..]);
      var k :| 0 <= k <= |s| - 1 && DropSpaces(sp, s[1..]) == s[1..][k..];
      assert s[1..][k..] == s[k + 1..];
    } else {
      assert s == s[0..];
    }
  }

  lemma SuffixIsTight(sp: Spaces, s: string, k: nat)
    requires Tight(sp, s) && k <= |s|
    ensures Tight(sp, s[k..])
  {
    forall i | 0 <= i < |s[k..]| && sp(s[k..][i])
      ensures s[k..][i] == ' ' && (i + 1 < |s[k..]| ==> !sp(s[k..][i + 1]))
    {
      assert s[k..][i] == s[k + i];
    }
  }

  lemma PrefixIsTight(sp: Spaces, s: string, r: string)
    requires Tight(sp, s) && r <= s
    ensures Tight(sp, r)
  {
    forall i | 0 <= i < |r| && sp(r[i])
      ensures r[i] == ' ' && (i + 1 < |r| ==> !sp(r[i + 1]))
    {
      assert r[i] == s[i];
    }
  }

  lemma DropSpacesIsTight(sp: Spaces, s: string)
    requires Tight(sp, s)
    ensures Tight(sp, DropSpaces(sp, s))
  {
    DropSpacesIsSuffix(sp, s);
    var k :| 0 <= k <= |s| && DropSpaces(sp, s) == s[k..];
    SuffixIsTight(sp, s, k);
  }

  lemma DropSpacesAtEndIsTidy(sp: Spaces, s: string)
    requires Tight(sp, s) && (s != [] ==> !sp(s[0]))
    ensures Tidy(sp, DropSpacesAtEnd(sp, s))
  {
    PrefixIsTight(sp, s, DropSpacesAtEnd(sp, s));
  }

  /** The result of normalization is tidy. */
  lemma NormalizedIsTidy(sp: Spaces, s: string)
    ensures Tidy(sp, NormalizeText(sp, s))
  {
    CollapseIsTight(sp, s);
    DropSpacesIsTight(sp, Collapse(sp, s));
    DropSpacesAtEndIsTidy(sp, DropSpaces(sp, Collapse(sp, s)));
  }

  lemma {:induction false} TightIsCollapsed(sp: Spaces, s: string)
    requires Tight(sp, s)
    ensures Collapse(sp, s) == s
    decreases |s|
  {
    if s != [] {
      var rest := s[1..];
      forall i | 0 <= i < |rest| && sp(rest[i])
        ensures rest[i] == ' ' && (i + 1 < |rest| ==> !sp(rest[i + 1]))
      {
        assert rest[i] == s[i + 1];
      }
      TightIsCollapsed(sp, rest);
      assert s == [s[0]] + rest;
      if sp(s[0]) { assert DropSpaces(sp, s) == DropSpaces(sp, rest) == rest; }
    }
  }

  /** Tidy text is left alone, so normalization is idempotent. */
  lemma TidyIsFixed(sp: Spaces, s: string)
    requires Tidy(sp, s)
    ensures NormalizeText(sp, s) == s
  {
    TightIsCollapsed(sp, s);
  }

  /** The characters that are not whitespace, in order. */
  function Ink(sp: Spaces, s: string): string
  {
    if s == [] then [] else InkAt(sp, s[0]) + Ink(sp, s[1..])
  }

  function InkAt(sp: Spaces, c: char): string
  {
    if sp(c) then [] else [c]
  }

  lemma InkOfHead(sp: Spaces, a: string, b: string)
    requires a != []
    ensures Ink(sp, a + b) == InkAt(sp, a[0]) + Ink(sp, a[1..] + b)
  {
    assert (a + b)[0] == a[0] && (a + b)[1..] == a[1..] + b;
  }

  lemma Regroup(a: string, b: string, c: string)
    ensures a + (b + c) == (a + b) + c
  {
  }

  lemma {:induction false} InkConcat(sp: Spaces, a: string, b: string)
    ensures Ink(sp, a + b) == Ink(sp, a) + Ink(sp, b)
  {
    if a == [] {
      assert a + b == b;
    } else {
      InkConcat(sp, a[1..], b);
      InkOfHead(sp, a, b);
      Regroup(InkAt(sp, a[0]), Ink(sp, a[1..]), Ink(sp, b));
    }
  }

  lemma {:induction false} InkOfDrops(sp: Spaces, s: string)
    ensures Ink(sp, DropSpaces(sp, s)) == Ink(sp, s)
  {
    if s != [] && sp(s[0]) { InkOfDrops(sp, s[1..]); }
  }

  lemma {:induction false} InkOfEndDrops(sp: Spaces, s: string)
    ensures Ink(sp, DropSpacesAtEnd(sp, s)) == Ink(sp, s)
  {
    if s != [] && sp(s[|s| - 1]) {
      InkOfEndDrops(sp, s[..|s| - 1]);
      InkConcat(sp, s[..|s| - 1], [s[|s| - 1]]);
      assert s == s[..|s| - 1] + [s[|s| - 1]];
      assert Ink(sp, [s[|s| - 1]]) == [];
    }
  }

  lemma {:induction false} InkOfCollapse(sp: Spaces, s: string)
    requires sp(' ')
    ensures Ink(sp, Collapse(sp, s)) == Ink(sp, s)
    decreases |s|
  {
    if s == [] {
    } else if sp(s[0]) {
      InkOfCollapse(sp, DropSpaces(sp, s));
      InkOfDrops(sp, s);
      InkConcat(sp, " ", Collapse(sp, DropSpaces(sp, s)));
      assert Ink(sp, " ") == [];
    } else {
      InkOfCollapse(sp, s[1..]);
      InkConcat(sp, [s[0]], Collapse(sp, s[1..]));
      assert Ink(sp, [s[0]]) == [s[0]];
    }
  }

  /** Normalization only touches whitespace. */
  lemma InkIsKept(sp: Spaces, s: string)
    requires sp(' ')
    ensures Ink(sp, NormalizeText(sp, s)) == Ink(sp, s)
  {
    var c := Collapse(sp, s);
    InkOfCollapse(sp, s);
    InkOfDrops(sp, c);
    InkOfEndDrops(sp, DropSpaces(sp, c));
  }

  // ---------------------------------------------------------------- values

  /** `_normalize_value`: strings at any depth of lists and dictionaries. */
  function NormalizeValue(sp: Spaces, v: Value): Value
  {
    match v
    case VStr(s) => VStr(NormalizeText(sp, s))
    case VList(items) => VList(seq(|items|, k requires 0 <= k < |items| => NormalizeValue(sp, items[k])))
    case VDict(entries) => VDict(map key | key in entries :: NormalizeValue(sp, entries[key]))
    case _ => v
  }

  lemma {:induction false} NormalizeValueTwice(sp: Spaces, v: Value)
    ensures NormalizeValue(sp, NormalizeValue(sp, v)) == NormalizeValue(sp, v)
  {
    match v
    case VStr(s) =>
      NormalizedIsTidy(sp, s);
      TidyIsFixed(sp, NormalizeText(sp, s));
    case VList(items) =>
      var once := NormalizeValue(sp, v).items;
      forall k | 0 <= k < |items|
        ensures NormalizeValue(sp, once[k]) == once[k]
      {
        NormalizeValueTwice(sp, items[k]);
      }
      assert NormalizeValue(sp, VList(once)).items == once;
    case VDict(entries) =>
      var once := NormalizeValue(sp, v).entries;
      forall key | key in entries
        ensures NormalizeValue(sp, once[key]) == once[key]
      {
        NormalizeValueTwice(sp, entries[key]);
      }
      assert NormalizeValue(sp, VDict(once)).entries == once;
    case _ =>
  }

  // ---------------------------------------------------------------- trees

  datatype Rule = ExcludeNonsemantic | CollapseWhitespace

  datatype TraceEntry = TraceEntry(node: NodeRef, key: string, rule: Rule)

  datatype Normalizer = Normalizer(profile: NormalizationProfile, sp: Spaces)
  {
    predicate Rewrites(key: string)
    {
      profile.collapseWhitespace && key !in profile.preserved
    }

    function ValueOf(key: string, v: Value): Value
    {
      if Rewrites(key) then NormalizeValue(sp, v) else v
    }

    function Content(c: Properties): Properties
    {
      map key | key in c && key !in profile.excluded :: ValueOf(key, c[key])
    }

    function NodeOf(n: Node): Node
    {
      n.(content := Content(n.content))
    }

    function TreeOf(t: Tree): Tree
    {
      t.(nodes := map r | r in t.nodes :: NodeOf(t.nodes[r]))
    }

    /** What happened to one content key. */
    function RuleFor(key: string, v: Value): Option<Rule>
    {
      if key in profile.excluded then Some(ExcludeNonsemantic)
      else if ValueOf(key, v) != v then Some(CollapseWhitespace)
      else None
    }

    function KeyTrace(ref: NodeRef, c: Properties, keys: seq<string>, k: nat): seq<TraceEntry>
      requires k <= |keys| && forall i :: 0 <= i < |keys| ==> keys[i] in c
      decreases k
    {
      if k == 0 then []
      else
        KeyTrace(ref, c, keys, k - 1) +
        match RuleFor(keys[k - 1], c[keys[k - 1]])
        case None => []
        case Some(rule) => [TraceEntry(ref, keys[k - 1], rule)]
    }
  }

  /** The trace names exactly the keys that were dropped or changed, once each. */
  ghost predicate IsTrace(z: Normalizer, t: Tree, trace: seq<TraceEntry>)
  {
    Distinct(trace) &&
    forall e :: e in trace <==>
      e.node in t.nodes && Traced(z, t.nodes[e.node].content, e.key, e.rule)
  }

  ghost predicate Traced(z: Normalizer, c: Properties, key: string, rule: Rule)
  {
    key in c && z.RuleFor(key, c[key]) == Some(rule)
  }

  lemma {:induction false} KeyTraceIs(z: Normalizer, ref: NodeRef, c: Properties, keys: seq<string>, k: nat)
    requires k <= |keys| && Distinct(keys) && forall i :: 0 <= i < |keys| ==> keys[i] in c
    ensures Distinct(z.KeyTrace(ref, c, keys, k))
    ensures forall e :: e in z.KeyTrace(ref, c, keys, k) <==>
      e.node == ref && e.key in keys[..k] && Traced(z, c, e.key, e.rule)
    decreases k
  {
    if k > 0 {
      KeyTraceIs(z, ref, c, keys, k - 1);
      assert keys[..k] == keys[..k - 1] + [keys[k - 1]];
      assert keys[k - 1] !in keys[..k - 1];
    }
  }

  method NormalizeNode(z: Normalizer, ref: NodeRef, n: Node) returns (r: Node, trace: seq<TraceEntry>)
    ensures r == z.NodeOf(n)
    ensures Distinct(trace) && forall e :: e in trace <==> e.node == ref && Traced(z, n.content, e.key, e.rule)
  {
    var keys := SortRefs(n.content.Keys);
    assert forall i :: 0 <= i < |keys| ==> keys[i] in keys;
    var content: Properties := map[];
    trace := [];
    for i := 0 to |keys|
      invariant trace == z.KeyTrace(ref, n.content, keys, i)
      invariant forall key :: key in content <==> key in keys[..i] && key !in z.profile.excluded
      invariant forall key :: key in content ==> content[key] == z.ValueOf(key, n.content[key])
    {
      var key, value := keys[i], n.content[keys[i]];
      assert keys[..i + 1] == keys[..i] + [key];
      if key in z.profile.excluded {
        trace := trace + [TraceEntry(ref, key, ExcludeNonsemantic)];
        continue;
      }
      if z.profile.collapseWhitespace && key !in z.profile.preserved {
        var normalized := NormalizeValue(z.sp, value);
        if normalized != value {
          trace := trace + [TraceEntry(ref, key, CollapseWhitespace)];
        }
        content := content[key := normalized];
      } else {
        content := content[key := value];
      }
    }
    assert keys[..|keys|] == keys;
    KeyTraceIs(z, ref, n.content, keys, |keys|);
    assert content == z.Content(n.content);
    r := n.(content := content);
  }

  /** `normalize`: node by node in reference order. */
  method Normalize(z: Normalizer, t: Tree) returns (r: Tree, trace: seq<TraceEntry>)
    ensures r == z.TreeOf(t)
    ensures IsTrace(z, t, trace)
  {
    var refs := SortRefs(t.nodes.Keys);
    assert forall i :: 0 <= i < |refs| ==> refs[i] in refs;
    var nodes: map<NodeRef, Node> := map[];
    trace := [];
    for i := 0 to |refs|
      invariant forall n :: n in nodes <==> n in refs[..i]
      invariant forall n :: n in nodes ==> nodes[n] == z.NodeOf(t.nodes[n])
      invariant Distinct(trace)
      invariant forall e :: e in trace <==> e.node in refs[..i] && Traced(z, t.nodes[e.node].content, e.key, e.rule)
    {
      assert refs[..i + 1] == refs[..i] + [refs[i]];
      assert refs[i] !in refs[..i];
      var node, part := NormalizeNode(z, refs[i], t.nodes[refs[i]]);
      DistinctConcat(trace, part);
      nodes := nodes[refs[i] := node];
      trace := trace + part;
    }
    assert refs[..|refs|] == refs;
    assert nodes == z.TreeOf(t).nodes;
    r := t.(nodes := nodes);
  }

  // ---------------------------------------------------------------- the second pass

  lemma ContentTwice(z: Normalizer, c: Properties)
    ensures z.Content(z.Content(c)) == z.Content(c)
    ensures forall key :: key in z.Content(c) ==> z.RuleFor(key, z.Content(c)[key]) == None
  {
    forall key | key in c && key !in z.profile.excluded
      ensures z.ValueOf(key, z.ValueOf(key, c[key])) == z.ValueOf(key, c[key])
    {
      NormalizeValueTwice(z.sp, c[key]);
    }
  }

  lemma HasMember<T>(xs: seq<T>)
    ensures xs != [] ==> exists x :: x in xs
  {
    if xs != [] { assert xs[0] in xs; }
  }

  /** A second pass returns the same tree with an empty trace. */
  lemma NormalizationIsIdempotent(z: Normalizer, t: Tree, trace: seq<TraceEntry>)
    requires IsTrace(z, z.TreeOf(t), trace)
    ensures z.TreeOf(z.TreeOf(t)) == z.TreeOf(t)
    ensures trace == []
  {
    forall n | n in t.nodes
      ensures z.NodeOf(z.NodeOf(t.nodes[n])) == z.NodeOf(t.nodes[n])
      ensures forall key, rule :: !Traced(z, z.NodeOf(t.nodes[n]).content, key, rule)
    {
      ContentTwice(z, t.nodes[n].content);
    }
    assert z.TreeOf(z.TreeOf(t)).nodes == z.TreeOf(t).nodes;
    HasMember(trace);
  }

  // ---------------------------------------------------------------- what is left alone

  lemma {:induction false} UpIsKept(z: Normalizer, t: Tree, n: NodeRef, k: nat)
    ensures z.TreeOf(t).Up(n, k) == t.Up(n, k)
    decreases k
  {
    if k > 0 && n in t.nodes && t.nodes[n].parent.Some? {
      UpIsKept(z, t, t.nodes[n].parent.value, k - 1);
    }
  }

  /** A valid tree stays valid: structure is copied verbatim. */
  lemma NormalizedIsValid(z: Normalizer, t: Tree)
    requires t.Valid()
    ensures z.TreeOf(t).Valid()
  {
    var r := z.TreeOf(t);
    forall n | n in r.nodes
      ensures r.LinksAt(n) && r.Anchored(n)
    {
      assert t.LinksAt(n) && t.Anchored(n);
      var k: nat :| t.Up(n, k) == Some(t.root);
      UpIsKept(z, t, n, k);
    }
  }

  lemma NormalizedKeepsShape(z: Normalizer, t: Tree)
    ensures SameShape(t, z.TreeOf(t))
  {
  }

  // ---------------------------------------------------------------- identifiers

  /** The text that `FirstPresent` would take from one key: identity first, then content. */
  function TextAt(n: Node, key: string): Option<string>
  {
    var fromIdentity := Lookup(n.identity, key);
    var value := if fromIdentity == VNull then Lookup(n.content, key) else fromIdentity;
    if value.VStr? && value.s != "" then Some(value.s) else None
  }

  /** What normalization makes of the text of one key. */
  function TextAfter(z: Normalizer, n: Node, key: string): Option<string>
  {
    if TextAt(n, key) == None then None
    else if Lookup(n.identity, key) != VNull then TextAt(n, key)
    else if key in z.profile.excluded then None
    else
      var text := if z.Rewrites(key) then NormalizeText(z.sp, TextAt(n, key).value) else TextAt(n, key).value;
      if text == "" then None else Some(text)
  }

  /** The key keeps its text: held as identity, or not excluded and either not rewritten or tidy already. */
  ghost predicate Safe(z: Normalizer, n: Node, key: string)
    requires TextAt(n, key).Some?
  {
    Lookup(n.identity, key) != VNull ||
    (key !in z.profile.excluded && (!z.Rewrites(key) || Tidy(z.sp, TextAt(n, key).value)))
  }

  lemma NormalizedTextAt(z: Normalizer, n: Node, key: string)
    ensures TextAt(z.NodeOf(n), key) == TextAfter(z, n, key)
  {
    if key in n.content && n.content[key] == VStr("") { assert NormalizeText(z.sp, "") == ""; }
  }

  lemma SafeIffKept(z: Normalizer, n: Node, key: string)
    requires TextAt(n, key).Some?
    ensures TextAfter(z, n, key) == TextAt(n, key) <==> Safe(z, n, key)
  {
    var s := TextAt(n, key).value;
    NormalizedIsTidy(z.sp, s);
    if Tidy(z.sp, s) { TidyIsFixed(z.sp, s); }
  }

  /** The k-th key is the first with a text. */
  ghost predicate FirstText(n: Node, keys: seq<string>, k: nat)
    requires k < |keys|
  {
    TextAt(n, keys[k]).Some? && forall i :: 0 <= i < k ==> TextAt(n, keys[i]) == None
  }

  lemma {:induction false} FirstOf(n: Node, keys: seq<string>, k: nat)
    requires k < |keys| && FirstText(n, keys, k)
    ensures FirstPresent(n, keys) == TextAt(n, keys[k])
  {
    if k > 0 { FirstOf(n, keys[1..], k - 1); }
  }

  lemma {:induction false} NoneOf(n: Node, keys: seq<string>)
    requires forall key :: key in keys ==> TextAt(n, key) == None
    ensures FirstPresent(n, keys) == None
  {
    if keys != [] {
      assert keys[0] in keys;
      NoneOf(n, keys[1..]);
    }
  }

  /** After the text of the k-th key is gone, a later key supplies the same text again. */
  ghost predicate Resupplied(z: Normalizer, n: Node, keys: seq<string>, k: nat)
    requires k < |keys|
  {
    TextAfter(z, n, keys[k]) == None &&
    exists j :: k < j < |keys| && TextAfter(z, n, keys[j]) == TextAt(n, keys[k]) &&
      forall i :: k < i < j ==> TextAfter(z, n, keys[i]) == None
  }

  lemma {:induction false} FirstUsable(n: Node, keys: seq<string>) returns (k: nat)
    ensures k <= |keys| && forall i :: 0 <= i < k ==> TextAt(n, keys[i]) == None
    ensures k < |keys| ==> FirstText(n, keys, k)
  {
    if keys == [] || TextAt(n, keys[0]).Some? {
      k := 0;
    } else {
      var rest := FirstUsable(n, keys[1..]);
      k := rest + 1;
    }
  }

  lemma FirstKeptIff(z: Normalizer, n: Node, keys: seq<string>, k: nat)
    requires k < |keys| && FirstText(n, keys, k)
    ensures FirstPresent(z.NodeOf(n), keys) == FirstPresent(n, keys) <==>
      Safe(z, n, keys[k]) || Resupplied(z, n, keys, k)
  {
    var m := z.NodeOf(n);
    forall key
      ensures TextAt(m, key) == TextAfter(z, n, key)
    {
      NormalizedTextAt(z, n, key);
    }
    FirstOf(n, keys, k);
    SafeIffKept(z, n, keys[k]);
    var j := FirstUsable(m, keys);
    assert j >= k;
    if j < |keys| { FirstOf(m, keys, j); } else { NoneOf(m, keys); }
  }

  /**
   * The identifier of a node survives normalization exactly when the first identifier key with a text
   * is safe, or its text vanishes and a later key supplies the same text. A node without an identifier
   * does not get one.
   */
  lemma IdSurvivesIff(z: Normalizer, n: Node)
    ensures PersistentIdOf(n) == None ==> PersistentIdOf(z.NodeOf(n)) == None
    ensures forall k | 0 <= k < |ID_KEYS| && FirstText(n, ID_KEYS, k) ::
      PersistentIdOf(z.NodeOf(n)) == PersistentIdOf(n) <==> Safe(z, n, ID_KEYS[k]) || Resupplied(z, n, ID_KEYS, k)
  {
    var k := FirstUsable(n, ID_KEYS);
    if k < |ID_KEYS| {
      FirstOf(n, ID_KEYS, k);
      FirstKeptIff(z, n, ID_KEYS, k);
    } else {
      forall key | key in ID_KEYS
        ensures TextAt(z.NodeOf(n), key) == None
      {
        NormalizedTextAt(z, n, key);
      }
      NoneOf(z.NodeOf(n), ID_KEYS);
    }
  }

  /** The first identifier key with a text, if any, is safe. */
  ghost predicate IdSafe(z: Normalizer, n: Node)
  {
    forall k | 0 <= k < |ID_KEYS| && FirstText(n, ID_KEYS, k) :: Safe(z, n, ID_KEYS[k])
  }

  /** A safe identifier is not altered. */
  lemma IdentityIsKept(z: Normalizer, n: Node)
    requires IdSafe(z, n)
    ensures PersistentIdOf(z.NodeOf(n)) == PersistentIdOf(n)
  {
    var k := FirstUsable(n, ID_KEYS);
    IdSurvivesIff(z, n);
    if k == |ID_KEYS| { NoneOf(n, ID_KEYS); }
  }

  /** The text of the k-th identifier key outlives normalization, and no earlier one does. */
  ghost predicate Survivor(z: Normalizer, n: Node, k: nat)
    requires k < |ID_KEYS|
  {
    TextAfter(z, n, ID_KEYS[k]).Some? && forall i :: 0 <= i < k ==> TextAfter(z, n, ID_KEYS[i]) == None
  }

  /** The normalized identifier is the first text that outlives normalization. */
  lemma IdAfterIff(z: Normalizer, n: Node, s: string)
    ensures PersistentIdOf(z.NodeOf(n)) == Some(s) <==>
      exists k: nat :: k < |ID_KEYS| && Survivor(z, n, k) && TextAfter(z, n, ID_KEYS[k]) == Some(s)
  {
    var m := z.NodeOf(n);
    forall key
      ensures TextAt(m, key) == TextAfter(z, n, key)
    {
      NormalizedTextAt(z, n, key);
    }
    var j := FirstUsable(m, ID_KEYS);
    if j < |ID_KEYS| {
      FirstOf(m, ID_KEYS, j);
      assert Survivor(z, n, j);
      forall k: nat | k < |ID_KEYS| && Survivor(z, n, k)
        ensures k == j
      {
      }
    } else {
      NoneOf(m, ID_KEYS);
    }
  }

  /** Nodes with different identifiers have the same one afterwards. */
  ghost predicate Merge(z: Normalizer, n: Node, m: Node)
  {
    PersistentIdOf(n) != PersistentIdOf(m) &&
    PersistentIdOf(z.NodeOf(n)).Some? && PersistentIdOf(z.NodeOf(n)) == PersistentIdOf(z.NodeOf(m))
  }

  ghost predicate SameSurvivor(z: Normalizer, n: Node, m: Node)
  {
    exists k: nat, l: nat :: k < |ID_KEYS| && l < |ID_KEYS| && Survivor(z, n, k) && Survivor(z, m, l) &&
      TextAfter(z, n, ID_KEYS[k]) == TextAfter(z, m, ID_KEYS[l])
  }

  /**
   * Any two nodes with different identifiers merge exactly when the first texts that outlive
   * normalization agree, under whichever keys and whether held as identity or as content.
   */
  lemma IdsMergeIff(z: Normalizer, n: Node, m: Node)
    ensures Merge(z, n, m) <==> PersistentIdOf(n) != PersistentIdOf(m) && SameSurvivor(z, n, m)
  {
    if PersistentIdOf(z.NodeOf(n)).Some? {
      IdAfterIff(z, n, PersistentIdOf(z.NodeOf(n)).value);
      IdAfterIff(z, m, PersistentIdOf(z.NodeOf(n)).value);
    }
    if SameSurvivor(z, n, m) {
      var k: nat, l: nat :| k < |ID_KEYS| && l < |ID_KEYS| && Survivor(z, n, k) && Survivor(z, m, l) &&
        TextAfter(z, n, ID_KEYS[k]) == TextAfter(z, m, ID_KEYS[l]);
      IdAfterIff(z, n, TextAfter(z, n, ID_KEYS[k]).value);
      IdAfterIff(z, m, TextAfter(z, n, ID_KEYS[k]).value);
    }
  }

  /** Pairs that do merge wherever content is rewritten: a padded content text with a content or an identity text. */
  lemma IdsCanMerge(z: Normalizer)
    requires z.sp(' ') && !z.sp('a') && z.Rewrites("id") && "id" !in z.profile.excluded
    ensures Merge(z, InContent("a"), InContent(" a")) && Merge(z, InIdentity("a"), InContent(" a"))
  {
    assert ID_KEYS[0] == "id";
    Spelled(z.sp);
    FirstOf(InContent("a"), ID_KEYS, 0);
    FirstOf(InContent(" a"), ID_KEYS, 0);
    FirstOf(InIdentity("a"), ID_KEYS, 0);
    assert Survivor(z, InContent("a"), 0) && Survivor(z, InContent(" a"), 0) && Survivor(z, InIdentity("a"), 0);
    IdsMergeIff(z, InContent("a"), InContent(" a"));
    IdsMergeIff(z, InIdentity("a"), InContent(" a"));
  }

  function InContent(id: string): Node
  {
    Node("t", None, [], map[], map["id" := VStr(id)], map[], None)
  }

  function InIdentity(id: string): Node
  {
    Node("t", None, [], map["id" := VStr(id)], map[], map[], None)
  }

  lemma Spelled(sp: Spaces)
    requires sp(' ') && !sp('a')
    ensures NormalizeText(sp, "a") == "a" == NormalizeText(sp, " a")
  {
    assert Collapse(sp, "a") == "a";
    assert DropSpaces(sp, " a") == "a";
    assert Collapse(sp, " a") == " a";
  }
}
