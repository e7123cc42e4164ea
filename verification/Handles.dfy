/**
 * What handles decide. Confirmed pairs never depend on them; an ambiguous edge does exactly when the
 * lexical choice of a source tied at the top turns a rival of some other source on or off.
 */
module Handles {
  import opened Options
  import opened Ordering
  import opened Evidence
  import opened Matches
  import opened Contest
  import opened Matcher

  // ---------------------------------------------------------------- renaming

  /** `f` and `g` rename the sources and targets of `c` into those of `d`, with inverses. */
  ghost predicate Renames(c: Contest, d: Contest, f: NodeRef -> NodeRef, f': NodeRef -> NodeRef,
                          g: NodeRef -> NodeRef, g': NodeRef -> NodeRef)
  {
    c.probable == d.probable && c.threshold == d.threshold && c.margin == d.margin &&
    (forall s :: s in c.sources ==> f(s) in d.sources && f'(f(s)) == s) &&
    (forall s :: s in d.sources ==> f'(s) in c.sources && f(f'(s)) == s) &&
    (forall t :: t in c.targets ==> g(t) in d.targets && g'(g(t)) == t) &&
    (forall t :: t in d.targets ==> g'(t) in c.targets && g(g'(t)) == t) &&
    (forall s, t :: s in c.sources && t in c.targets ==>
      c.admissible(s, t) == d.admissible(f(s), g(t)) && c.value(s, t) == d.value(f(s), g(t)))
  }

  lemma RenamesBack(c: Contest, d: Contest, f: NodeRef -> NodeRef, f': NodeRef -> NodeRef,
                    g: NodeRef -> NodeRef, g': NodeRef -> NodeRef)
    requires Renames(c, d, f, f', g, g')
    ensures Renames(d, c, f', f, g', g)
  {
    forall s2, t2 | s2 in d.sources && t2 in d.targets
      ensures d.admissible(s2, t2) == c.admissible(f'(s2), g'(t2)) && d.value(s2, t2) == c.value(f'(s2), g'(t2))
    {
      assert f(f'(s2)) == s2 && g(g'(t2)) == t2;
    }
  }

  lemma RenamedNear(c: Contest, d: Contest, f: NodeRef -> NodeRef, f': NodeRef -> NodeRef,
                    g: NodeRef -> NodeRef, g': NodeRef -> NodeRef, s: NodeRef, t: NodeRef)
    requires Renames(c, d, f, f', g, g')
    requires s in c.sources && t in c.targets && c.Near(s, t)
    ensures d.Near(f(s), g(t))
  {
    var b :| c.AtBest(s, b) && c.value(s, b) >= c.threshold && c.value(s, b) - c.value(s, t) <= c.margin;
    forall t2 | d.Plausible(f(s), t2)
      ensures d.value(f(s), t2) <= d.value(f(s), g(b))
    {
      assert c.Plausible(s, g'(t2));
    }
    assert d.AtBest(f(s), g(b));
  }

  lemma RenamedSettled(c: Contest, d: Contest, f: NodeRef -> NodeRef, f': NodeRef -> NodeRef,
                       g: NodeRef -> NodeRef, g': NodeRef -> NodeRef, s: NodeRef, t: NodeRef)
    requires Renames(c, d, f, f', g, g') && Renames(d, c, f', f, g', g)
    requires s in c.sources && t in c.targets && c.Settled(s, t)
    ensures d.Settled(f(s), g(t))
  {
    forall t2 | t2 != g(t) && d.Plausible(f(s), t2)
      ensures d.value(f(s), g(t)) - d.value(f(s), t2) > d.margin
    {
      assert c.Plausible(s, g'(t2));
    }
    forall s2 | s2 != f(s) && d.Near(s2, g(t))
      ensures forall t2 :: t2 != g(t) ==> !d.Near(s2, t2)
      ensures d.value(f(s), g(t)) - d.value(s2, g(t)) > d.margin
    {
      RenamedNear(d, c, f', f, g', g, s2, g(t));
      forall t2 | t2 != g(t)
        ensures !d.Near(s2, t2)
      {
        if d.Near(s2, t2) { RenamedNear(d, c, f', f, g', g, s2, t2); }
      }
    }
  }

  /** Renaming every reference, in any order, renames the confirmed matches and nothing else. */
  lemma RenamingKeepsConfirmation(c: Contest, d: Contest, f: NodeRef -> NodeRef, f': NodeRef -> NodeRef,
                                  g: NodeRef -> NodeRef, g': NodeRef -> NodeRef, s: NodeRef, t: NodeRef)
    requires c.Valid() && Renames(c, d, f, f', g, g')
    requires s in c.sources && t in c.targets
    ensures c.Wins(s, t) <==> d.Wins(f(s), g(t))
  {
    RenamesBack(c, d, f, f', g, g');
    ConfirmationIgnoresNames(c, s, t);
    ConfirmationIgnoresNames(d, f(s), g(t));
    if c.Settled(s, t) { RenamedSettled(c, d, f, f', g, g', s, t); }
    if d.Settled(f(s), g(t)) { RenamedSettled(d, c, f', f, g', g, f(s), g(t)); }
  }

  // ---------------------------------------------------------------- ties at the top

  /** `t` is one of several best targets of `u`, above the threshold: the handle decides whether `u` picks it. */
  ghost predicate Tied(c: Contest, u: NodeRef, t: NodeRef)
  {
    c.AtBest(u, t) && c.value(u, t) >= c.threshold && exists t2 :: t2 != t && c.AtBest(u, t2)
  }

  /** `t` is the one best target of `u`, above the threshold: `u` picks it under any handles. */
  ghost predicate Fixed(c: Contest, u: NodeRef, t: NodeRef)
  {
    c.AtBest(u, t) && c.value(u, t) >= c.threshold && forall t2 :: c.AtBest(u, t2) ==> t2 == t
  }

  predicate Outscores(c: Contest, u: NodeRef, s: NodeRef, t: NodeRef)
  {
    c.value(u, t) - c.value(s, t) > c.margin
  }

  predicate Rivals(c: Contest, u: NodeRef, s: NodeRef, t: NodeRef)
  {
    u != s && c.value(u, t) - c.value(s, t) <= c.margin && c.value(s, t) - c.value(u, t) <= c.margin
  }

  ghost predicate FixedRival(c: Contest, s: NodeRef, t: NodeRef)
  {
    exists u :: Fixed(c, u, t) && Rivals(c, u, s, t)
  }

  ghost predicate NoneOutscores(c: Contest, s: NodeRef, t: NodeRef)
  {
    forall u :: Fixed(c, u, t) ==> !Outscores(c, u, s, t)
  }

  /** Some order of the targets makes `k` pick `t` and everyone who would outscore `s` pick something else. */
  ghost predicate CanRival(c: Contest, k: NodeRef, s: NodeRef, t: NodeRef)
  {
    Tied(c, k, t) && Rivals(c, k, s, t) &&
    forall h :: Tied(c, h, t) && Outscores(c, h, s, t) ==> exists t2 :: c.AtBest(h, t2) && !c.AtBest(k, t2)
  }

  /**
   * The edge between `s` and its one near target `t` hangs on a tie: no source bound to `t` outscores
   * `s`, and either `s` has a rival bound to `t` and a tied source that would outscore it, or no rival
   * bound to `t` and a tied source that can become one. Without sources tied at the top nothing is fragile.
   */
  ghost predicate Fragile(c: Contest, s: NodeRef, t: NodeRef)
  {
    c.SoleNear(s, t) && NoneOutscores(c, s, t) &&
    if FixedRival(c, s, t) then exists h :: Tied(c, h, t) && Outscores(c, h, s, t) else exists k :: CanRival(c, k, s, t)
  }

  /** What an edge that is not fragile amounts to. */
  ghost predicate Firm(c: Contest, s: NodeRef, t: NodeRef)
  {
    c.Near(s, t) && (c.SoleNear(s, t) ==> NoneOutscores(c, s, t) && FixedRival(c, s, t))
  }

  lemma ContendsIff(c: Contest, u: NodeRef, t: NodeRef)
    ensures c.Contends(u, t) <==> Fixed(c, u, t) || (Tied(c, u, t) && c.TopPick(u, t))
  {
  }

  /** A source with one near target is on an edge exactly if nobody outscores it there and somebody rivals it. */
  lemma SoleEdge(c: Contest, s: NodeRef, t: NodeRef)
    requires c.Valid() && c.SoleNear(s, t)
    ensures c.Edge(s, t) <==>
      (forall u :: c.Contends(u, t) ==> !Outscores(c, u, s, t)) && exists u :: c.Contends(u, t) && Rivals(c, u, s, t)
  {
    SoleNearContends(c, s, t);
    var w := ChampionExists(c, s, t);
    if c.Edge(s, t) {
      var u :| u != s && c.Close(u, t);
      assert c.Contends(u, t) && Rivals(c, u, s, t);
    }
    if u :| c.Contends(u, t) && Rivals(c, u, s, t) && !Outscores(c, w, s, t) {
      assert c.Close(s, t) && c.Close(w, t);
      assert w == s ==> c.Close(u, t);
    }
  }

  lemma FirmIffEdge(c: Contest, s: NodeRef, t: NodeRef)
    requires c.Valid() && !Fragile(c, s, t)
    ensures c.Edge(s, t) <==> Firm(c, s, t)
  {
    forall u
      ensures c.Contends(u, t) <==> Fixed(c, u, t) || (Tied(c, u, t) && c.TopPick(u, t))
    {
      ContendsIff(c, u, t);
    }
    if c.SoleNear(s, t) {
      SoleEdge(c, s, t);
      if !FixedRival(c, s, t) && NoneOutscores(c, s, t) {
        forall k | c.Contends(k, t) && Rivals(c, k, s, t)
          ensures exists h :: c.Contends(h, t) && Outscores(c, h, s, t)
        {
          assert !CanRival(c, k, s, t);
          var h :| Tied(c, h, t) && Outscores(c, h, s, t) && forall t2 :: c.AtBest(h, t2) ==> c.AtBest(k, t2);
          assert c.TopPick(h, t);
        }
      }
    } else if c.Near(s, t) {
      assert c.SourceEdge(s, t);
    } else if c.TargetEdge(s, t) {
      ContenderIsNear(c, s, t);
    }
  }

  // ---------------------------------------------------------------- ties under renaming

  lemma RenamedBest(c: Contest, d: Contest, f: NodeRef -> NodeRef, f': NodeRef -> NodeRef,
                    g: NodeRef -> NodeRef, g': NodeRef -> NodeRef, s: NodeRef, t: NodeRef)
    requires Renames(c, d, f, f', g, g') && s in c.sources && t in c.targets
    ensures c.AtBest(s, t) <==> d.AtBest(f(s), g(t))
    ensures c.Near(s, t) <==> d.Near(f(s), g(t))
  {
    RenamesBack(c, d, f, f', g, g');
    if c.AtBest(s, t) { BestCarries(c, d, f, f', g, g', s, t); }
    if d.AtBest(f(s), g(t)) { BestCarries(d, c, f', f, g', g, f(s), g(t)); }
    if c.Near(s, t) { RenamedNear(c, d, f, f', g, g', s, t); }
    if d.Near(f(s), g(t)) { RenamedNear(d, c, f', f, g', g, f(s), g(t)); }
  }

  lemma BestCarries(c: Contest, d: Contest, f: NodeRef -> NodeRef, f': NodeRef -> NodeRef,
                    g: NodeRef -> NodeRef, g': NodeRef -> NodeRef, s: NodeRef, t: NodeRef)
    requires Renames(c, d, f, f', g, g') && c.AtBest(s, t)
    ensures d.AtBest(f(s), g(t))
  {
    forall t2 | d.Plausible(f(s), t2)
      ensures d.value(f(s), t2) <= d.value(f(s), g(t))
    {
      assert c.Plausible(s, g'(t2));
    }
  }

  lemma RenamedTies(c: Contest, d: Contest, f: NodeRef -> NodeRef, f': NodeRef -> NodeRef,
                    g: NodeRef -> NodeRef, g': NodeRef -> NodeRef, u: NodeRef, t: NodeRef)
    requires Renames(c, d, f, f', g, g')
    ensures Tied(c, u, t) ==> Tied(d, f(u), g(t))
    ensures Fixed(c, u, t) ==> Fixed(d, f(u), g(t))
  {
    if c.AtBest(u, t) {
      BestCarries(c, d, f, f', g, g', u, t);
      if t2 :| t2 != t && c.AtBest(u, t2) {
        BestCarries(c, d, f, f', g, g', u, t2);
        assert g(t2) != g(t);
      }
      forall t2 | d.AtBest(f(u), t2)
        ensures c.AtBest(u, g'(t2))
      {
        RenamedBest(c, d, f, f', g, g', u, g'(t2));
      }
    }
  }

  lemma RenamedSole(c: Contest, d: Contest, f: NodeRef -> NodeRef, f': NodeRef -> NodeRef,
                    g: NodeRef -> NodeRef, g': NodeRef -> NodeRef, s: NodeRef, t: NodeRef)
    requires Renames(c, d, f, f', g, g') && c.SoleNear(s, t)
    ensures d.SoleNear(f(s), g(t))
  {
    RenamedBest(c, d, f, f', g, g', s, t);
    forall t2 | d.Near(f(s), t2)
      ensures t2 == g(t)
    {
      RenamedBest(c, d, f, f', g, g', s, g'(t2));
    }
  }

  lemma RenamedBound(c: Contest, d: Contest, f: NodeRef -> NodeRef, f': NodeRef -> NodeRef,
                     g: NodeRef -> NodeRef, g': NodeRef -> NodeRef, s: NodeRef, t: NodeRef)
    requires Renames(c, d, f, f', g, g') && s in c.sources && t in c.targets
    ensures NoneOutscores(c, s, t) ==> NoneOutscores(d, f(s), g(t))
    ensures FixedRival(c, s, t) ==> FixedRival(d, f(s), g(t))
  {
    RenamesBack(c, d, f, f', g, g');
    if NoneOutscores(c, s, t) {
      forall u | Fixed(d, u, g(t))
        ensures !Outscores(d, u, f(s), g(t))
      {
        RenamedTies(d, c, f', f, g', g, u, g(t));
      }
    }
    if u :| Fixed(c, u, t) && Rivals(c, u, s, t) {
      RenamedTies(c, d, f, f', g, g', u, t);
      assert Rivals(d, f(u), f(s), g(t));
    }
  }

  lemma RenamedCanRival(c: Contest, d: Contest, f: NodeRef -> NodeRef, f': NodeRef -> NodeRef,
                        g: NodeRef -> NodeRef, g': NodeRef -> NodeRef, k: NodeRef, s: NodeRef, t: NodeRef)
    requires Renames(c, d, f, f', g, g') && s in c.sources && CanRival(c, k, s, t)
    ensures CanRival(d, f(k), f(s), g(t))
  {
    RenamesBack(c, d, f, f', g, g');
    RenamedTies(c, d, f, f', g, g', k, t);
    forall h | Tied(d, h, g(t)) && Outscores(d, h, f(s), g(t))
      ensures exists t2 :: d.AtBest(h, t2) && !d.AtBest(f(k), t2)
    {
      RenamedTies(d, c, f', f, g', g, h, g(t));
      var t2 :| c.AtBest(f'(h), t2) && !c.AtBest(k, t2);
      RenamedBest(c, d, f, f', g, g', f'(h), t2);
      RenamedBest(c, d, f, f', g, g', k, t2);
    }
  }

  lemma RenamedFragile(c: Contest, d: Contest, f: NodeRef -> NodeRef, f': NodeRef -> NodeRef,
                       g: NodeRef -> NodeRef, g': NodeRef -> NodeRef, s: NodeRef, t: NodeRef)
    requires Renames(c, d, f, f', g, g') && Fragile(c, s, t)
    ensures Fragile(d, f(s), g(t))
  {
    RenamesBack(c, d, f, f', g, g');
    RenamedSole(c, d, f, f', g, g', s, t);
    RenamedBound(c, d, f, f', g, g', s, t);
    RenamedBound(d, c, f', f, g', g, f(s), g(t));
    if FixedRival(c, s, t) {
      var h :| Tied(c, h, t) && Outscores(c, h, s, t);
      RenamedTies(c, d, f, f', g, g', h, t);
      assert Outscores(d, f(h), f(s), g(t));
    } else {
      var k :| CanRival(c, k, s, t);
      RenamedCanRival(c, d, f, f', g, g', k, s, t);
    }
  }

  lemma RenamedFirm(c: Contest, d: Contest, f: NodeRef -> NodeRef, f': NodeRef -> NodeRef,
                    g: NodeRef -> NodeRef, g': NodeRef -> NodeRef, s: NodeRef, t: NodeRef)
    requires Renames(c, d, f, f', g, g') && Firm(c, s, t)
    ensures Firm(d, f(s), g(t))
  {
    RenamesBack(c, d, f, f', g, g');
    RenamedBest(c, d, f, f', g, g', s, t);
    RenamedBound(c, d, f, f', g, g', s, t);
    if d.SoleNear(f(s), g(t)) { RenamedSole(d, c, f', f, g', g, f(s), g(t)); }
  }

  lemma FirmEdgeSurvives(c: Contest, d: Contest, f: NodeRef -> NodeRef, f': NodeRef -> NodeRef,
                         g: NodeRef -> NodeRef, g': NodeRef -> NodeRef, s: NodeRef, t: NodeRef)
    requires c.Valid() && Renames(c, d, f, f', g, g') && s in c.sources && t in c.targets && !Fragile(c, s, t)
    ensures c.Edge(s, t) <==> d.Edge(f(s), g(t))
  {
    RenamesBack(c, d, f, f', g, g');
    if Fragile(d, f(s), g(t)) { RenamedFragile(d, c, f', f, g', g, f(s), g(t)); }
    FirmIffEdge(c, s, t);
    FirmIffEdge(d, f(s), g(t));
    if Firm(c, s, t) { RenamedFirm(c, d, f, f', g, g', s, t); }
    if Firm(d, f(s), g(t)) { RenamedFirm(d, c, f', f, g', g, f(s), g(t)); }
  }

  // ---------------------------------------------------------------- handles that break a tie

  /** New handles that put the targets in `first` before `t` and all others after it. */
  function Handle(first: set<NodeRef>, t: NodeRef): NodeRef -> NodeRef
  {
    x => (if x in first then "a" else if x == t then "b" else "c") + x
  }

  function Same(x: NodeRef): NodeRef
  {
    x
  }

  function Unhandle(y: NodeRef): NodeRef
  {
    if y == "" then "" else y[1..]
  }

  ghost function Reordered(c: Contest, first: set<NodeRef>, t: NodeRef): Contest
  {
    Contest(c.sources, set x | x in c.targets :: Handle(first, t)(x),
            (s, y) => c.admissible(s, Unhandle(y)), (s, y) => c.value(s, Unhandle(y)),
            c.probable, c.threshold, c.margin)
  }

  lemma ReorderedRenames(c: Contest, first: set<NodeRef>, t: NodeRef)
    ensures Renames(c, Reordered(c, first, t), Same, Same, Handle(first, t), Unhandle)
  {
  }

  /** A source tied on `t` picks it under the new handles exactly if no target in `first` is as good. */
  lemma TieBroken(c: Contest, first: set<NodeRef>, t: NodeRef, u: NodeRef)
    requires t !in first && c.AtBest(u, t)
    ensures Reordered(c, first, t).TopPick(u, Handle(first, t)(t)) <==> forall x :: x in first ==> !c.AtBest(u, x)
  {
    var d, g := Reordered(c, first, t), Handle(first, t);
    ReorderedRenames(c, first, t);
    forall x | x in c.targets
      ensures c.AtBest(u, x) <==> d.AtBest(u, g(x))
      ensures x in first ==> Below(g(x), g(t)) && !Below(g(t), g(x))
      ensures x !in first && x != t ==> Below(g(t), g(x))
    {
      RenamedBest(c, d, Same, Same, g, Unhandle, u, x);
    }
    forall y | d.AtBest(u, y)
      ensures y == g(Unhandle(y)) && Unhandle(y) in c.targets
    {
    }
  }

  lemma ReorderedContends(c: Contest, first: set<NodeRef>, t: NodeRef, u: NodeRef)
    requires t !in first && t in c.targets
    ensures Reordered(c, first, t).Contends(u, Handle(first, t)(t)) <==>
      Fixed(c, u, t) || (Tied(c, u, t) && forall x :: x in first ==> !c.AtBest(u, x))
  {
    var d, g := Reordered(c, first, t), Handle(first, t);
    ReorderedRenames(c, first, t);
    if u in c.sources { RenamedBest(c, d, Same, Same, g, Unhandle, u, t); }
    if c.AtBest(u, t) { TieBroken(c, first, t, u); }
  }

  /** The edge under the new handles. */
  lemma ReorderedEdge(c: Contest, first: set<NodeRef>, s: NodeRef, t: NodeRef)
    requires c.Valid() && c.SoleNear(s, t) && t !in first
    ensures Reordered(c, first, t).Edge(s, Handle(first, t)(t)) <==>
      (forall u :: Picking(c, first, u, t) ==> !Outscores(c, u, s, t)) &&
      exists u :: Picking(c, first, u, t) && Rivals(c, u, s, t)
  {
    var d, g := Reordered(c, first, t), Handle(first, t);
    ReorderedRenames(c, first, t);
    RenamedSole(c, d, Same, Same, g, Unhandle, s, t);
    SoleEdge(d, s, g(t));
    forall u
      ensures d.Contends(u, g(t)) <==> Picking(c, first, u, t)
      ensures Outscores(d, u, s, g(t)) <==> Outscores(c, u, s, t)
      ensures Rivals(d, u, s, g(t)) <==> Rivals(c, u, s, t)
    {
      ReorderedContends(c, first, t, u);
    }
  }

  ghost predicate Picking(c: Contest, first: set<NodeRef>, u: NodeRef, t: NodeRef)
  {
    Fixed(c, u, t) || (Tied(c, u, t) && forall x :: x in first ==> !c.AtBest(u, x))
  }

  /** For a fragile edge two sets of handles give opposite answers. */
  lemma FragileFlips(c: Contest, s: NodeRef, t: NodeRef) returns (first: set<NodeRef>, first': set<NodeRef>)
    requires c.Valid() && Fragile(c, s, t)
    ensures Reordered(c, first, t).Edge(s, Handle(first, t)(t)) <==>
      !Reordered(c, first', t).Edge(s, Handle(first', t)(t))
  {
    first := c.targets - {t};
    ReorderedEdge(c, first, s, t);
    assert forall u :: Picking(c, first, u, t) <==> Fixed(c, u, t);
    if FixedRival(c, s, t) {
      first' := {};
      ReorderedEdge(c, first', s, t);
      var h :| Tied(c, h, t) && Outscores(c, h, s, t);
      assert Picking(c, first', h, t);
    } else {
      var k :| CanRival(c, k, s, t);
      first' := set x | x in c.targets && !c.AtBest(k, x);
      ReorderedEdge(c, first', s, t);
      assert Picking(c, first', k, t);
      forall u | Picking(c, first', u, t)
        ensures !Outscores(c, u, s, t)
      {
      }
    }
  }

  /** Whatever the handles, the edge is there or not as it is under the given ones. */
  ghost predicate Survives(c: Contest, s: NodeRef, t: NodeRef)
  {
    forall d, f, f', g, g' :: Renames(c, d, f, f', g, g') ==> (c.Edge(s, t) <==> d.Edge(f(s), g(t)))
  }

  lemma SurvivesReordering(c: Contest, first: set<NodeRef>, s: NodeRef, t: NodeRef)
    requires Survives(c, s, t)
    ensures c.Edge(s, t) <==> Reordered(c, first, t).Edge(s, Handle(first, t)(t))
  {
    ReorderedRenames(c, first, t);
  }

  /**
   * An ambiguous edge, or its absence, survives every renaming of the handles exactly when it is not
   * fragile; the condition compares scores, thresholds and the margin and mentions no order of handles.
   */
  lemma EdgesSurviveIff(c: Contest, s: NodeRef, t: NodeRef)
    requires c.Valid() && s in c.sources && t in c.targets
    ensures Survives(c, s, t) <==> !Fragile(c, s, t)
  {
    if !Fragile(c, s, t) {
      forall d, f, f', g, g' | Renames(c, d, f, f', g, g')
        ensures c.Edge(s, t) <==> d.Edge(f(s), g(t))
      {
        FirmEdgeSurvives(c, d, f, f', g, g', s, t);
      }
    } else if Survives(c, s, t) {
      var first, first' := FragileFlips(c, s, t);
      SurvivesReordering(c, first, s, t);
      SurvivesReordering(c, first', s, t);
    }
  }

  // ---------------------------------------------------------------- both phases

  /** The same evidence under other handles. */
  ghost predicate RenamesSide(a: Side, b: Side, f: NodeRef -> NodeRef, f': NodeRef -> NodeRef)
  {
    (forall n :: n in a ==> f(n) in b && f'(f(n)) == n && b[f(n)] == a[n]) &&
    forall n :: n in b ==> f'(n) in a && f(f'(n)) == n
  }

  ghost predicate DuplicatesKnown(side: Side, duplicates: set<string>)
  {
    forall id :: id in duplicates <==> Duplicated(side, id)
  }

  ghost predicate RenamesInput(x: MatchInput, y: MatchInput, f: NodeRef -> NodeRef, f': NodeRef -> NodeRef,
                               g: NodeRef -> NodeRef, g': NodeRef -> NodeRef)
  {
    x.profile == y.profile && RenamesSide(x.ev.source, y.ev.source, f, f') &&
    RenamesSide(x.ev.target, y.ev.target, g, g') &&
    DuplicatesKnown(x.ev.source, x.ev.duplicateSourceIds) && DuplicatesKnown(x.ev.target, x.ev.duplicateTargetIds) &&
    DuplicatesKnown(y.ev.source, y.ev.duplicateSourceIds) && DuplicatesKnown(y.ev.target, y.ev.duplicateTargetIds)
  }

  lemma InputRenamesBack(x: MatchInput, y: MatchInput, f: NodeRef -> NodeRef, f': NodeRef -> NodeRef,
                         g: NodeRef -> NodeRef, g': NodeRef -> NodeRef)
    requires RenamesInput(x, y, f, f', g, g')
    ensures RenamesInput(y, x, f', f, g', g)
  {
  }

  /** Where duplicates are known, the last holder of an id is its only one. */
  lemma RenamedHolder(a: Side, b: Side, da: set<string>, db: set<string>, f: NodeRef -> NodeRef, f': NodeRef -> NodeRef,
                      n: NodeRef)
    requires RenamesSide(a, b, f, f') && DuplicatesKnown(a, da) && DuplicatesKnown(b, db) && Holder(a, da, n)
    ensures Holder(b, db, f(n)) && b[f(n)].persistentId == a[n].persistentId
  {
    forall m | m in b && m != f(n)
      ensures b[m].persistentId != b[f(n)].persistentId
    {
      assert a[f'(m)] == b[m] && f'(m) != n;
    }
  }

  lemma RenamedAuthPair(x: MatchInput, y: MatchInput, f: NodeRef -> NodeRef, f': NodeRef -> NodeRef,
                        g: NodeRef -> NodeRef, g': NodeRef -> NodeRef, s: NodeRef, t: NodeRef)
    requires RenamesInput(x, y, f, f', g, g') && x.AuthPair(s, t)
    ensures y.AuthPair(f(s), g(t)) && (x.AuthConfirmed(s, t) <==> y.AuthConfirmed(f(s), g(t)))
  {
    RenamedHolder(x.ev.source, y.ev.source, x.ev.duplicateSourceIds, y.ev.duplicateSourceIds, f, f', s);
    RenamedHolder(x.ev.target, y.ev.target, x.ev.duplicateTargetIds, y.ev.duplicateTargetIds, g, g', t);
  }

  lemma RenamedFree(x: MatchInput, y: MatchInput, f: NodeRef -> NodeRef, f': NodeRef -> NodeRef,
                    g: NodeRef -> NodeRef, g': NodeRef -> NodeRef)
    requires RenamesInput(x, y, f, f', g, g')
    ensures forall s :: s in x.FreeSources() ==> f(s) in y.FreeSources()
    ensures forall t :: t in x.FreeTargets() ==> g(t) in y.FreeTargets()
  {
    forall s, t | y.AuthConfirmed(s, t)
      ensures x.AuthConfirmed(f'(s), g'(t))
    {
      RenamedAuthPair(y, x, f', f, g', g, s, t);
    }
    forall s | s in x.FreeSources()
      ensures f(s) in y.FreeSources()
    {
      forall t
        ensures !y.AuthConfirmed(f(s), t)
      {
        assert !x.AuthConfirmed(f'(f(s)), g'(t));
      }
    }
    forall t | t in x.FreeTargets()
      ensures g(t) in y.FreeTargets()
    {
      forall s
        ensures !y.AuthConfirmed(s, g(t))
      {
        assert !x.AuthConfirmed(f'(s), g'(g(t)));
      }
    }
  }

  lemma RenamedPhase2(x: MatchInput, y: MatchInput, f: NodeRef -> NodeRef, f': NodeRef -> NodeRef,
                      g: NodeRef -> NodeRef, g': NodeRef -> NodeRef)
    requires RenamesInput(x, y, f, f', g, g')
    ensures Renames(x.Phase2(), y.Phase2(), f, f', g, g')
  {
    InputRenamesBack(x, y, f, f', g, g');
    RenamedFree(x, y, f, f', g, g');
    RenamedFree(y, x, f', f, g', g);
  }

  /**
   * Renaming the handles of both trees, in any order, renames the confirmed and the rejected pairs of
   * both phases, and every ambiguous edge that is not fragile.
   */
  lemma RenamingKeepsVerdicts(x: MatchInput, y: MatchInput, f: NodeRef -> NodeRef, f': NodeRef -> NodeRef,
                              g: NodeRef -> NodeRef, g': NodeRef -> NodeRef, s: NodeRef, t: NodeRef)
    requires x.profile.Valid() && RenamesInput(x, y, f, f', g, g') && s in x.ev.source && t in x.ev.target
    ensures x.Verdict(s, t) == Some(Confirmed) <==> y.Verdict(f(s), g(t)) == Some(Confirmed)
    ensures x.Verdict(s, t) == Some(Rejected) <==> y.Verdict(f(s), g(t)) == Some(Rejected)
    ensures !Fragile(x.Phase2(), s, t) ==> x.Verdict(s, t) == y.Verdict(f(s), g(t))
  {
    InputRenamesBack(x, y, f, f', g, g');
    RenamedPhase2(x, y, f, f', g, g');
    RenamesBack(x.Phase2(), y.Phase2(), f, f', g, g');
    if x.AuthPair(s, t) { RenamedAuthPair(x, y, f, f', g, g', s, t); }
    if y.AuthPair(f(s), g(t)) { RenamedAuthPair(y, x, f', f, g', g, f(s), g(t)); }
    PhaseVerdicts(x, y, f, f', g, g', s, t);
    WinsApartFromEdges(x, s, t);
    WinsApartFromEdges(y, f(s), g(t));
  }

  lemma WinsApartFromEdges(x: MatchInput, s: NodeRef, t: NodeRef)
    ensures !(x.Phase2().Wins(s, t) && x.Phase2().Edge(s, t))
  {
  }

  lemma PhaseVerdicts(x: MatchInput, y: MatchInput, f: NodeRef -> NodeRef, f': NodeRef -> NodeRef,
                      g: NodeRef -> NodeRef, g': NodeRef -> NodeRef, s: NodeRef, t: NodeRef)
    requires x.profile.Valid() && x.profile == y.profile && s in x.ev.source && t in x.ev.target
    requires Renames(x.Phase2(), y.Phase2(), f, f', g, g') && Renames(y.Phase2(), x.Phase2(), f', f, g', g)
    requires f'(f(s)) == s && g'(g(t)) == t
    ensures x.Phase2().Wins(s, t) <==> y.Phase2().Wins(f(s), g(t))
    ensures !Fragile(x.Phase2(), s, t) ==> (x.Phase2().Edge(s, t) <==> y.Phase2().Edge(f(s), g(t)))
  {
    var c, d := x.Phase2(), y.Phase2();
    if s in c.sources && t in c.targets {
      RenamingKeepsConfirmation(c, d, f, f', g, g', s, t);
      if !Fragile(c, s, t) { FirmEdgeSurvives(c, d, f, f', g, g', s, t); }
    } else {
      if d.Wins(f(s), g(t)) || d.Edge(f(s), g(t)) { Phase2IsFree(y, f(s), g(t)); }
      if c.Wins(s, t) || c.Edge(s, t) { Phase2IsFree(x, s, t); }
    }
  }
}
