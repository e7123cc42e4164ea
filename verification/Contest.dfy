/**
 * Similarity matching as a contest: free sources score free targets, near-ties become ambiguous
 * edges, and the rest is confirmed greedily. The main result is that the greedy outcome is a
 * relation between scores in which no reference name occurs.
 */
module Contest {
  import opened Ordering

  datatype Contest = Contest(
    sources: set<NodeRef>,
    targets: set<NodeRef>,
    admissible: (NodeRef, NodeRef) -> bool,
    value: (NodeRef, NodeRef) -> real,
    probable: real,
    threshold: real,
    margin: real)
  {
    predicate Valid()
    {
      probable <= threshold && margin >= 0.0
    }

    /** An admissible pair that scores at least the probable threshold. */
    predicate Plausible(s: NodeRef, t: NodeRef)
    {
      s in sources && t in targets && admissible(s, t) && value(s, t) >= probable
    }

    ghost predicate AtBest(s: NodeRef, t: NodeRef)
    {
      Plausible(s, t) && forall t2 :: Plausible(s, t2) ==> value(s, t2) <= value(s, t)
    }

    /** The head of the sorted row: a best target, the lexically first among equals. */
    ghost predicate TopPick(s: NodeRef, t: NodeRef)
    {
      AtBest(s, t) && forall t2 :: AtBest(s, t2) && t2 != t ==> Below(t, t2)
    }

    /** `t` is within the margin of an above-threshold best of `s`. */
    ghost predicate Near(s: NodeRef, t: NodeRef)
    {
      Plausible(s, t) &&
      exists b :: AtBest(s, b) && value(s, b) >= threshold && value(s, b) - value(s, t) <= margin
    }

    /** One source, several near-tied targets. */
    ghost predicate SourceEdge(s: NodeRef, t: NodeRef)
    {
      Near(s, t) && exists t2 :: t2 != t && Near(s, t2)
    }

    ghost predicate Contends(s: NodeRef, t: NodeRef)
    {
      TopPick(s, t) && value(s, t) >= threshold
    }

    ghost predicate Champion(u: NodeRef, t: NodeRef)
    {
      Contends(u, t) && forall s :: Contends(s, t) ==> value(s, t) <= value(u, t)
    }

    ghost predicate Close(s: NodeRef, t: NodeRef)
    {
      Contends(s, t) && exists u :: Champion(u, t) && value(u, t) - value(s, t) <= margin
    }

    /** Several near-tied sources whose top pick is the same target. */
    ghost predicate TargetEdge(s: NodeRef, t: NodeRef)
    {
      Close(s, t) && exists s2 :: s2 != s && Close(s2, t)
    }

    ghost predicate Edge(s: NodeRef, t: NodeRef)
    {
      SourceEdge(s, t) || TargetEdge(s, t)
    }

    ghost predicate Confirmable(s: NodeRef, t: NodeRef)
    {
      Contends(s, t) && (forall t2 :: !Edge(s, t2)) && (forall s2 :: !Edge(s2, t))
    }

    /** What the greedy loop confirms: the highest-scoring confirmable source of a target. */
    ghost predicate Wins(s: NodeRef, t: NodeRef)
    {
      Confirmable(s, t) && forall s2 :: Confirmable(s2, t) ==> value(s2, t) <= value(s, t)
    }

    /** Confirmation without names: only scores, thresholds and the margin are compared. */
    ghost predicate Settled(s: NodeRef, t: NodeRef)
    {
      Plausible(s, t) && value(s, t) >= threshold &&
      (forall t2 :: t2 != t && Plausible(s, t2) ==> value(s, t) - value(s, t2) > margin) &&
      (forall s2 :: s2 != s && Near(s2, t) ==>
        (forall t2 :: t2 != t ==> !Near(s2, t2)) && value(s, t) - value(s2, t) > margin)
    }

    /** The source has a viable target above the match threshold. */
    ghost predicate Viable(s: NodeRef)
    {
      exists t :: Near(s, t)
    }

    /** The result mentions the source: confirmed or ambiguous. */
    ghost predicate Reported(s: NodeRef)
    {
      exists t :: Wins(s, t) || Edge(s, t)
    }

    ghost predicate SoleNear(s: NodeRef, t: NodeRef)
    {
      Near(s, t) && forall t2 :: t2 != t ==> !Near(s, t2)
    }
  }

  // ---------------------------------------------------------------- picks and champions

  lemma PickUnique(c: Contest, s: NodeRef, t: NodeRef, t2: NodeRef)
    requires c.TopPick(s, t) && c.TopPick(s, t2)
    ensures t == t2
  {
    BelowTotal(t, t2);
  }

  lemma {:induction false} GreatestAmong(c: Contest, t: NodeRef, ss: set<NodeRef>) returns (u: NodeRef)
    requires ss != {}
    ensures u in ss && forall s :: s in ss ==> c.value(s, t) <= c.value(u, t)
  {
    u :| u in ss;
    var rest := ss - {u};
    assert forall s :: s in ss ==> s == u || s in rest;
    if rest != {} {
      var w := GreatestAmong(c, t, rest);
      if c.value(w, t) > c.value(u, t) { u := w; }
    }
  }

  lemma ChampionExists(c: Contest, s: NodeRef, t: NodeRef) returns (u: NodeRef)
    requires c.Contends(s, t)
    ensures c.Champion(u, t)
  {
    var ss := set s2 | s2 in c.sources && c.Contends(s2, t);
    assert s in ss;
    u := GreatestAmong(c, t, ss);
    forall s2 | c.Contends(s2, t)
      ensures c.value(s2, t) <= c.value(u, t)
    {
      assert s2 in ss;
    }
  }

  lemma ContenderIsNear(c: Contest, s: NodeRef, t: NodeRef)
    requires c.Valid() && c.Contends(s, t)
    ensures c.Near(s, t)
  {
  }

  /** A sole near target is the top pick, so its source contends for it. */
  lemma SoleNearContends(c: Contest, s: NodeRef, t: NodeRef)
    requires c.Valid() && c.SoleNear(s, t)
    ensures c.Contends(s, t)
  {
    var b :| c.AtBest(s, b) && c.value(s, b) >= c.threshold && c.value(s, b) - c.value(s, t) <= c.margin;
    assert c.Near(s, b);
    forall t2 | c.AtBest(s, t2)
      ensures t2 == t
    {
      assert c.Near(s, t2);
    }
  }

  // ---------------------------------------------------------------- names never decide

  lemma ChampionOfClearTargetIsConfirmable(c: Contest, u: NodeRef, t: NodeRef)
    requires c.Valid() && c.Champion(u, t) && forall s2 :: !c.Edge(s2, t)
    ensures c.Confirmable(u, t)
  {
    ContenderIsNear(c, u, t);
    forall x
      ensures !c.Edge(u, x)
    {
      assert !c.Edge(u, t);
      assert c.Near(u, x) && x != t ==> c.SourceEdge(u, t);
      if c.TargetEdge(u, x) {
        PickUnique(c, u, x, t);
      }
    }
  }

  lemma WinnerIsSettled(c: Contest, s: NodeRef, t: NodeRef)
    requires c.Valid() && c.Wins(s, t)
    ensures c.Settled(s, t)
  {
    ContenderIsNear(c, s, t);
    assert !c.Edge(s, t);
    forall t2 | t2 != t && c.Plausible(s, t2)
      ensures c.value(s, t) - c.value(s, t2) > c.margin
    {
      assert c.value(s, t) - c.value(s, t2) <= c.margin ==> c.Near(s, t2);
    }
    var u := ChampionExists(c, s, t);
    ChampionOfClearTargetIsConfirmable(c, u, t);
    forall s2 | s2 != s && c.Near(s2, t)
      ensures forall t2 :: t2 != t ==> !c.Near(s2, t2)
      ensures c.value(s, t) - c.value(s2, t) > c.margin
    {
      assert !c.Edge(s2, t);
      assert c.SoleNear(s2, t);
      SoleNearContends(c, s2, t);
      assert c.value(s, t) - c.value(s2, t) <= c.margin ==> c.Close(s2, t);
      assert c.Close(s, t);
    }
  }

  lemma SettledOutscoresContenders(c: Contest, s: NodeRef, t: NodeRef, s2: NodeRef)
    requires c.Valid() && c.Settled(s, t) && c.Contends(s, t) && s2 != s
    ensures !c.Close(s2, t)
  {
    if c.Contends(s2, t) {
      ContenderIsNear(c, s2, t);
    }
  }

  lemma SettledContends(c: Contest, s: NodeRef, t: NodeRef)
    requires c.Valid() && c.Settled(s, t)
    ensures c.Contends(s, t)
  {
    forall t2 | c.Plausible(s, t2)
      ensures c.value(s, t2) <= c.value(s, t)
    {
    }
    assert c.AtBest(s, t);
    forall t2 | c.AtBest(s, t2)
      ensures t2 == t
    {
      assert c.Plausible(s, t2) && c.value(s, t) <= c.value(s, t2);
    }
  }

  lemma SettledIsWinner(c: Contest, s: NodeRef, t: NodeRef)
    requires c.Valid() && c.Settled(s, t)
    ensures c.Wins(s, t)
  {
    SettledContends(c, s, t);
    ContenderIsNear(c, s, t);
    forall x
      ensures !c.Edge(s, x)
    {
      if c.TargetEdge(s, x) {
        PickUnique(c, s, x, t);
        var s2 :| s2 != s && c.Close(s2, t);
        SettledOutscoresContenders(c, s, t, s2);
      }
    }
    forall s2
      ensures !c.Edge(s2, t)
    {
      if c.TargetEdge(s2, t) {
        var s3 :| s3 != s2 && c.Close(s3, t);
        SettledOutscoresContenders(c, s, t, if s2 == s then s3 else s2);
      }
    }
    forall s2 | c.Confirmable(s2, t)
      ensures c.value(s2, t) <= c.value(s, t)
    {
      ContenderIsNear(c, s2, t);
    }
  }

  /** Lexical order decides no confirmed match. */
  lemma ConfirmationIgnoresNames(c: Contest, s: NodeRef, t: NodeRef)
    requires c.Valid()
    ensures c.Wins(s, t) <==> c.Settled(s, t)
  {
    if c.Wins(s, t) { WinnerIsSettled(c, s, t); }
    if c.Settled(s, t) { SettledIsWinner(c, s, t); }
  }

  /** Where nothing scores and nothing need score, any plausible pair leads to a confirmation or an ambiguity. */
  lemma LevelContestDecides(c: Contest, s: NodeRef, t: NodeRef) returns (s2: NodeRef, t2: NodeRef)
    requires c.Valid() && c.threshold == 0.0 && (forall a, b :: c.value(a, b) == 0.0) && c.Plausible(s, t)
    ensures c.Wins(s2, t2) || c.Edge(s2, t2)
  {
    assert c.AtBest(s, t) && c.Near(s, t);
    if c.Reported(s) {
      s2 := s;
      t2 :| c.Wins(s, t2) || c.Edge(s, t2);
    } else {
      SilentSources(c, s);
      t2 :| c.SoleNear(s, t2) && (Outbid(c, s, t2) || Vetoed(c, s, t2));
      s2 :| s2 != s && c.Near(s2, t2) && !c.SoleNear(s2, t2);
      assert c.SourceEdge(s2, t2);
    }
  }

  /** A pair with no plausible competitor is settled. */
  lemma AloneIsSettled(c: Contest, s: NodeRef, t: NodeRef)
    requires c.Valid() && c.Plausible(s, t) && c.value(s, t) >= c.threshold
    requires forall s2, t2 :: c.Plausible(s2, t2) && (s2 == s || t2 == t) ==> s2 == s && t2 == t
    ensures c.Wins(s, t)
  {
    ConfirmationIgnoresNames(c, s, t);
  }

  lemma WinnersAreOneToOne(c: Contest, s: NodeRef, t: NodeRef, s2: NodeRef, t2: NodeRef)
    requires c.Valid() && c.Wins(s, t) && c.Wins(s2, t2)
    ensures s == s2 <==> t == t2
  {
    WinnerIsSettled(c, s, t);
    ContenderIsNear(c, s2, t2);
    if s == s2 {
      PickUnique(c, s, t, t2);
    }
  }

  // ---------------------------------------------------------------- when uncertainty is silent

  /** A rival whose top pick is also `t` beats `s` by more than the margin. */
  ghost predicate Outbid(c: Contest, s: NodeRef, t: NodeRef)
  {
    exists u :: c.Contends(u, t) && c.value(u, t) - c.value(s, t) > c.margin
  }

  /** Another source is near `t` and near a second target, and no rival contends close to `s`. */
  ghost predicate Vetoed(c: Contest, s: NodeRef, t: NodeRef)
  {
    (forall u :: u != s && c.Contends(u, t) ==> c.value(s, t) - c.value(u, t) > c.margin) &&
    exists s2 :: s2 != s && c.Near(s2, t) && !c.SoleNear(s2, t)
  }

  /**
   * By the documentation a source with a viable correspondence is never reported as absent, so it
   * should be confirmed or kept as ambiguous. That is false: a viable source goes unreported exactly
   * when its one near target is outbid or vetoed.
   */
  lemma SilentSources(c: Contest, s: NodeRef)
    requires c.Valid() && c.Viable(s)
    ensures !c.Reported(s) <==> exists t :: c.SoleNear(s, t) && (Outbid(c, s, t) || Vetoed(c, s, t))
  {
    var t :| c.Near(s, t);
    if c.SoleNear(s, t) {
      SoleNearContends(c, s, t);
      SilentOnSoleTarget(c, s, t);
      forall x
        ensures c.Wins(s, x) || c.Edge(s, x) ==> x == t
      {
        if c.Wins(s, x) || c.TargetEdge(s, x) { PickUnique(c, s, x, t); }
      }
    } else {
      assert c.Edge(s, t);
    }
  }

  lemma SilentOnSoleTarget(c: Contest, s: NodeRef, t: NodeRef)
    requires c.Valid() && c.SoleNear(s, t) && c.Contends(s, t)
    ensures !c.Wins(s, t) && !c.Edge(s, t) <==> Outbid(c, s, t) || Vetoed(c, s, t)
  {
    ConfirmationIgnoresNames(c, s, t);
    var u := ChampionExists(c, s, t);
    if Outbid(c, s, t) {
      var w :| c.Contends(w, t) && c.value(w, t) - c.value(s, t) > c.margin;
      ContenderIsNear(c, w, t);
      assert !c.Close(s, t);
    } else {
      assert c.Close(s, t);
      if !c.TargetEdge(s, t) {
        assert !(u != s && c.Close(u, t));
        forall w | w != s && c.Contends(w, t)
          ensures c.value(s, t) - c.value(w, t) > c.margin
        {
          assert !c.Close(w, t);
        }
        SettledUnlessVetoed(c, s, t);
      } else {
        var w :| w != s && c.Close(w, t);
        CloseIsNotFarBehind(c, s, t, w);
      }
    }
  }

  lemma CloseIsNotFarBehind(c: Contest, s: NodeRef, t: NodeRef, w: NodeRef)
    requires c.Contends(s, t) && c.Close(w, t)
    ensures c.Contends(w, t) && c.value(s, t) - c.value(w, t) <= c.margin
  {
  }

  lemma SettledUnlessVetoed(c: Contest, s: NodeRef, t: NodeRef)
    requires c.Valid() && c.SoleNear(s, t) && c.Contends(s, t)
    requires forall w :: w != s && c.Contends(w, t) ==> c.value(s, t) - c.value(w, t) > c.margin
    ensures c.Settled(s, t) <==> !Vetoed(c, s, t)
  {
    if !Vetoed(c, s, t) {
      forall s2 | s2 != s && c.Near(s2, t)
        ensures forall t2 :: t2 != t ==> !c.Near(s2, t2)
        ensures c.value(s, t) - c.value(s2, t) > c.margin
      {
        assert c.SoleNear(s2, t);
        SoleNearContends(c, s2, t);
      }
      forall t2 | t2 != t && c.Plausible(s, t2)
        ensures c.value(s, t) - c.value(s, t2) > c.margin
      {
        assert !c.Near(s, t2);
      }
    }
  }
}
