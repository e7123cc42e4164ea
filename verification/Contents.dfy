/** When content counts as changed: Python's equality spelled out, and MATCH against UPDATE in its terms. */
module Contents {
  import opened Ordering
  import opened Trees
  import opened Profiles
  import opened Operations
  import opened Classification
  import opened Diagnosis
  import Alignment

  // ---------------------------------------------------------------- equality of values

  predicate IsNumber(v: Value)
  {
    v.VBool? || v.VInt? || v.VReal?
  }

  function NumberOf(v: Value): real
    requires IsNumber(v)
  {
    match v
    case VBool(b) => if b then 1.0 else 0.0
    case VInt(i) => i as real
    case VReal(r) => r
  }

  /**
   * Null and strings equal themselves only, numbers and booleans whatever is the same number, lists and
   * dictionaries whatever agrees member by member.
   */
  ghost predicate Equal(a: Value, b: Value)
    decreases a
  {
    match a
    case VNull => b.VNull?
    case VStr(s) => b.VStr? && b.s == s
    case VList(items) =>
      b.VList? && |b.items| == |items| && forall k :: 0 <= k < |items| ==> Equal(items[k], b.items[k])
    case VDict(entries) =>
      b.VDict? && b.entries.Keys == entries.Keys && forall key :: key in entries ==> Equal(entries[key], b.entries[key])
    case _ => IsNumber(b) && NumberOf(a) == NumberOf(b)
  }

  lemma {:induction false} NumericIsEqual(a: Value, b: Value)
    ensures Numeric(a) == Numeric(b) <==> Equal(a, b)
    decreases a, 1
  {
    if a.VList? && b.VList? {
      ListsNumeric(a, b);
    } else if a.VDict? && b.VDict? {
      DictsNumeric(a, b);
    }
  }

  lemma {:induction false} ListsNumeric(a: Value, b: Value)
    requires a.VList? && b.VList?
    ensures Numeric(a) == Numeric(b) <==> Equal(a, b)
    decreases a, 0
  {
    var us, vs := Numeric(a).items, Numeric(b).items;
    assert |us| == |a.items| && |vs| == |b.items|;
    forall k | 0 <= k < |us| && k < |vs|
      ensures us[k] == vs[k] <==> Equal(a.items[k], b.items[k])
    {
      NumericIsEqual(a.items[k], b.items[k]);
    }
    if Equal(a, b) { assert us == vs; }
  }

  lemma {:induction false} DictsNumeric(a: Value, b: Value)
    requires a.VDict? && b.VDict?
    ensures Numeric(a) == Numeric(b) <==> Equal(a, b)
    decreases a, 0
  {
    var us, vs := Numeric(a).entries, Numeric(b).entries;
    assert us.Keys == a.entries.Keys && vs.Keys == b.entries.Keys;
    forall key | key in us && key in vs
      ensures us[key] == vs[key] <==> Equal(a.entries[key], b.entries[key])
    {
      NumericIsEqual(a.entries[key], b.entries[key]);
    }
    if Equal(a, b) { assert us == vs; }
  }

  /** Some key is present on one side only, or holds unequal values. */
  ghost predicate Changed(a: Properties, b: Properties)
  {
    exists key :: DiffersAt(a, b, key)
  }

  ghost predicate DiffersAt(a: Properties, b: Properties, key: string)
  {
    (key in a && key !in b) || (key !in a && key in b) || (key in a && key in b && !Equal(a[key], b[key]))
  }

  lemma SameIffUnchanged(a: Properties, b: Properties)
    ensures SameProperties(a, b) <==> !Changed(a, b)
  {
    forall key | key in a && key in b
      ensures Numeric(a[key]) == Numeric(b[key]) <==> Equal(a[key], b[key])
    {
      NumericIsEqual(a[key], b[key]);
    }
    if !Changed(a, b) {
      forall key
        ensures key in a <==> key in b
        ensures key in a && key in b ==> Equal(a[key], b[key])
      {
        assert !DiffersAt(a, b, key);
      }
    }
  }

  // ---------------------------------------------------------------- MATCH and UPDATE

  /**
   * A confirmed pair in place is an UPDATE if some content key differs and a MATCH if none does, in so
   * far as the type is enabled; no other pair is either.
   */
  lemma UpdateIffChanged(r: Run, s: NodeRef, t: NodeRef)
    requires r.Sound()
    ensures r.Emits(UpdateId(s, t)) <==>
      r.Stays(s, t) && Update in r.profile.enabled && Changed(r.x.source.nodes[s].content, r.x.target.nodes[t].content)
    ensures r.Emits(MatchedId(s, t)) <==>
      r.Stays(s, t) && Match in r.profile.enabled && !Changed(r.x.source.nodes[s].content, r.x.target.nodes[t].content)
  {
    MatchIff(r, s, t);
    if r.Stays(s, t) { SameIffUnchanged(r.x.source.nodes[s].content, r.x.target.nodes[t].content); }
  }

  /** The classifier alone: what it makes of an aligned position depends on the two contents only. */
  lemma AlignedReport(ctx: Context, s: NodeRef, t: NodeRef)
    requires s in ctx.source.nodes && t in ctx.target.nodes
    ensures var found := MatchAt(ctx, Alignment.AlignedPosition((s, t)));
      if Changed(ctx.source.nodes[s].content, ctx.target.nodes[t].content)
      then found.Some? <==> Update in ctx.profile.enabled
      else found.Some? <==> Match in ctx.profile.enabled
    ensures var found := MatchAt(ctx, Alignment.AlignedPosition((s, t)));
      found.Some? ==>
        (found.value.kind == Update <==> Changed(ctx.source.nodes[s].content, ctx.target.nodes[t].content)) &&
        found.value.kind in {Update, Match} &&
        found.value.codes == if found.value.kind == Update then [ContentChanged] else [IdentityPreserved]
  {
    SameIffUnchanged(ctx.source.nodes[s].content, ctx.target.nodes[t].content);
  }
}
