/** The counting walk that bounds parsed JSON before it is adapted. */
module JsonLimits {
  import opened Options
  import opened DataTree

  /** The number of values, containers included. */
  function Size(v: Data): (n: nat)
    ensures n >= 1
    decreases v, Arity(v) + 1
  {
    1 + SizeUpTo(v, Arity(v))
  }

  function SizeUpTo(v: Data, k: nat): nat
    requires k <= Arity(v)
    decreases v, k
  {
    if k == 0 then 0 else SizeUpTo(v, k - 1) + Size(Kid(v, k - 1))
  }

  function Max(a: nat, b: nat): nat
  {
    if a < b then b else a
  }

  /** The nesting depth; a scalar has depth one. */
  function Depth(v: Data): (n: nat)
    ensures n >= 1
    decreases v, Arity(v) + 1
  {
    1 + DepthUpTo(v, Arity(v))
  }

  function DepthUpTo(v: Data, k: nat): nat
    requires k <= Arity(v)
    decreases v, k
  {
    if k == 0 then 0 else Max(DepthUpTo(v, k - 1), Depth(Kid(v, k - 1)))
  }

  lemma {:induction false} KidIsShallower(v: Data, i: nat, k: nat)
    requires i < k <= Arity(v)
    ensures Depth(Kid(v, i)) <= DepthUpTo(v, k) && Depth(Kid(v, i)) < Depth(v)
    ensures DepthUpTo(v, k) < Depth(v)
    decreases Arity(v) - k, k
  {
    DepthGrows(v, k, Arity(v));
    DepthGrows(v, i + 1, k);
  }

  lemma {:induction false} DepthGrows(v: Data, i: nat, k: nat)
    requires i <= k <= Arity(v)
    ensures DepthUpTo(v, i) <= DepthUpTo(v, k)
    decreases k - i
  {
    if i < k { DepthGrows(v, i, k - 1); }
  }

  lemma {:induction false} SizeGrows(v: Data, i: nat, k: nat)
    requires i <= k <= Arity(v)
    ensures SizeUpTo(v, i) <= SizeUpTo(v, k)
    decreases k - i
  {
    if i < k { SizeGrows(v, i, k - 1); }
  }

  lemma KidIsSmaller(v: Data, i: nat)
    requires i < Arity(v)
    ensures Size(Kid(v, i)) <= SizeUpTo(v, i + 1) <= SizeUpTo(v, Arity(v)) < Size(v)
  {
    SizeGrows(v, i + 1, Arity(v));
  }

  // ---------------------------------------------------------------- the walk

  datatype Rejection = TooManyNodes | TooDeep | KeyNotText | NotFinite | UnsupportedType

  datatype Limits = Limits(maxNodes: nat, maxDepth: nat)
  {
    /** Supported throughout, within both limits when entered at the given depth and count. */
    ghost predicate Fits(v: Data, depth: nat, count: nat)
    {
      Supported(v) && count + Size(v) <= maxNodes && depth + Depth(v) - 1 <= maxDepth
    }

    /** The same for a container of which only the first `k` members are looked at. */
    ghost predicate FitsUpTo(v: Data, k: nat, depth: nat, count: nat)
      requires k <= Arity(v)
    {
      MembersSupported(v, k) && (v.DObject? ==> forall i :: 0 <= i < k ==> v.entries[i].key.TextKey?) &&
      count + 1 + SizeUpTo(v, k) <= maxNodes && depth + DepthUpTo(v, k) <= maxDepth
    }

    /** The rejection gives a true reason. */
    ghost predicate Excuses(e: Rejection, v: Data, depth: nat, count: nat)
    {
      match e
      case TooManyNodes => count + Size(v) > maxNodes
      case TooDeep => depth + Depth(v) - 1 > maxDepth
      case _ => !Supported(v)
    }
  }

  lemma FitsStep(l: Limits, v: Data, i: nat, depth: nat, count: nat)
    requires i < Arity(v) && l.FitsUpTo(v, i, depth, count)
    requires v.DObject? ==> v.entries[i].key.TextKey?
    requires l.Fits(Kid(v, i), depth + 1, count + 1 + SizeUpTo(v, i))
    ensures l.FitsUpTo(v, i + 1, depth, count)
  {
  }

  lemma FitsAll(l: Limits, v: Data, depth: nat, count: nat)
    requires v.IsContainer() && l.FitsUpTo(v, Arity(v), depth, count)
    ensures l.Fits(v, depth, count)
  {
  }

  /** A reason to reject a member is a reason to reject the container. */
  lemma MemberRejected(l: Limits, v: Data, i: nat, depth: nat, count: nat, e: Rejection)
    requires i < Arity(v) && l.Excuses(e, Kid(v, i), depth + 1, count + 1 + SizeUpTo(v, i))
    ensures l.Excuses(e, v, depth, count)
  {
    KidIsSmaller(v, i);
    KidIsShallower(v, i, i + 1);
  }

  lemma ExcusedDoesNotFit(l: Limits, v: Data, depth: nat, count: nat, e: Rejection)
    requires l.Excuses(e, v, depth, count)
    ensures !l.Fits(v, depth, count)
  {
  }

  class Walker {
    const limits: Limits
    var count: nat

    constructor (limits: Limits)
      ensures this.limits == limits && count == 0
    {
      this.limits := limits;
      count := 0;
    }

    /** `walk`: counts every value and stops at the first violation. */
    method Walk(v: Data, depth: nat) returns (r: Option<Rejection>)
      modifies this`count
      ensures r == None ==> limits.Fits(v, depth, old(count)) && count == old(count) + Size(v)
      ensures r.Some? ==> limits.Excuses(r.value, v, depth, old(count))
      decreases v, 2
    {
      count := count + 1;
      if count > limits.maxNodes {
        return Some(TooManyNodes);
      }
      if depth > limits.maxDepth {
        return Some(TooDeep);
      }
      if v.IsContainer() {
        r := WalkMembers(v, depth, old(count));
        return;
      }
      if v == DNonFinite {
        return Some(NotFinite);
      }
      if v == DOther {
        return Some(UnsupportedType);
      }
      return None;
    }

    /** The loop over the values of an object or the items of an array. */
    method WalkMembers(v: Data, depth: nat, ghost before: nat) returns (r: Option<Rejection>)
      requires v.IsContainer() && count == before + 1 && count <= limits.maxNodes && depth <= limits.maxDepth
      modifies this`count
      ensures r == None ==> limits.Fits(v, depth, before) && count == before + Size(v)
      ensures r.Some? ==> limits.Excuses(r.value, v, depth, before)
      decreases v, 1
    {
      for i := 0 to Arity(v)
        invariant limits.FitsUpTo(v, i, depth, before) && count == before + 1 + SizeUpTo(v, i)
      {
        if v.DObject? && v.entries[i].key.OtherKey? {
          return Some(KeyNotText);
        }
        r := Walk(Kid(v, i), depth + 1);
        if r != None {
          MemberRejected(limits, v, i, depth, before, r.value);
          return;
        }
        FitsStep(limits, v, i, depth, before);
      }
      FitsAll(limits, v, depth, before);
      return None;
    }
  }

  /** `_enforce_structure_limits`: accepts exactly the supported values within both limits. */
  method EnforceStructureLimits(v: Data, limits: Limits) returns (r: Option<Rejection>)
    ensures r == None <==> Supported(v) && Size(v) <= limits.maxNodes && Depth(v) <= limits.maxDepth
    ensures r.Some? ==> limits.Excuses(r.value, v, 1, 0)
  {
    var walker := new Walker(limits);
    r := walker.Walk(v, 1);
    if r.Some? { ExcusedDoesNotFit(limits, v, 1, 0, r.value); }
  }
}
