/** What one aligned region says: a partition of the children, and a faithful order verdict. */
module Regions {
  import opened Options
  import opened Ordering
  import opened Alignment
  import Lcs

  /** Two children never share a partner. */
  ghost predicate Injective(partner: Partner, scs: seq<NodeRef>)
  {
    forall s, s2 :: s in scs && s2 in scs && partner(s).Some? && partner(s) == partner(s2) ==> s == s2
  }

  ghost predicate Partnered(scs: seq<NodeRef>, partner: Partner, tc: NodeRef)
  {
    exists sc :: sc in scs && partner(sc) == Some(tc)
  }

  // ---------------------------------------------------------------- membership

  lemma {:induction false} MatchedPairsAre(scs: seq<NodeRef>, tcs: seq<NodeRef>, partner: Partner, k: nat, s: NodeRef,
                                           t: NodeRef)
    requires k <= |scs|
    ensures (s, t) in MatchedPairs(scs, tcs, partner, k) <==> s in scs[..k] && partner(s) == Some(t) && t in tcs
  {
    if k > 0 {
      MatchedPairsAre(scs, tcs, partner, k - 1, s, t);
      assert scs[..k] == scs[..k - 1] + [scs[k - 1]];
    }
  }

  lemma SettledAre(scs: seq<NodeRef>, tcs: seq<NodeRef>, partner: Partner, t: NodeRef)
    ensures t in TargetsOf(MatchedPairs(scs, tcs, partner, |scs|)) <==> t in tcs && Partnered(scs, partner, t)
  {
    var matched := MatchedPairs(scs, tcs, partner, |scs|);
    assert scs[..|scs|] == scs;
    if t in TargetsOf(matched) {
      var i :| 0 <= i < |matched| && matched[i].1 == t;
      assert (matched[i].0, t) in matched;
      MatchedPairsAre(scs, tcs, partner, |scs|, matched[i].0, t);
    }
    if t in tcs && Partnered(scs, partner, t) {
      var s :| s in scs && partner(s) == Some(t);
      MatchedPairsAre(scs, tcs, partner, |scs|, s, t);
      var i :| 0 <= i < |matched| && matched[i] == (s, t);
      assert TargetsOf(matched)[i] == t;
    }
  }

  lemma {:induction false} SourcePositionsAre(scs: seq<NodeRef>, partner: Partner, settled: seq<NodeRef>,
                                              ambiguous: AmbiguousIndex, k: nat, p: AlignedPair)
    requires k <= |scs|
    ensures p in SourcePositions(scs, partner, settled, ambiguous, k) <==>
      exists i :: 0 <= i < k && !MatchedHere(partner, settled, scs[i]) && p == SourcePosition(scs[i], ambiguous)
  {
    if k > 0 { SourcePositionsAre(scs, partner, settled, ambiguous, k - 1, p); }
  }

  lemma {:induction false} TargetPositionsAre(tcs: seq<NodeRef>, settled: seq<NodeRef>, ambiguous: AmbiguousIndex,
                                              k: nat, p: AlignedPair)
    requires k <= |tcs|
    ensures p in TargetPositions(tcs, settled, ambiguous, k) <==>
      exists i :: 0 <= i < k && tcs[i] !in settled && p == TargetPosition(tcs[i], ambiguous)
  {
    if k > 0 { TargetPositionsAre(tcs, settled, ambiguous, k - 1, p); }
  }

  ghost predicate AlignedHere(p: AlignedPair, scs: seq<NodeRef>, tcs: seq<NodeRef>, partner: Partner)
  {
    exists s, t :: s in scs && t in tcs && partner(s) == Some(t) && p == AlignedPosition((s, t))
  }

  ghost predicate LeftHere(p: AlignedPair, scs: seq<NodeRef>, tcs: seq<NodeRef>, partner: Partner,
                           ambiguous: AmbiguousIndex)
  {
    exists s :: s in scs && !MatchedHere(partner, tcs, s) && p == SourcePosition(s, ambiguous)
  }

  ghost predicate RightHere(p: AlignedPair, scs: seq<NodeRef>, tcs: seq<NodeRef>, partner: Partner,
                            ambiguous: AmbiguousIndex)
  {
    exists t :: t in tcs && !Partnered(scs, partner, t) && p == TargetPosition(t, ambiguous)
  }

  /** A region holds exactly: partners both present, sources without, targets without. */
  lemma PositionsAre(scs: seq<NodeRef>, tcs: seq<NodeRef>, partner: Partner,
                     ambS: AmbiguousIndex, ambT: AmbiguousIndex, p: AlignedPair)
    ensures p in PositionsFor(scs, tcs, partner, ambS, ambT) <==>
      AlignedHere(p, scs, tcs, partner) || LeftHere(p, scs, tcs, partner, ambS) || RightHere(p, scs, tcs, partner, ambT)
  {
    var matched := MatchedPairs(scs, tcs, partner, |scs|);
    var settled := TargetsOf(matched);
    AlignedPositionsAre(scs, tcs, partner, p);
    SourcePositionsAre(scs, partner, settled, ambS, |scs|, p);
    TargetPositionsAre(tcs, settled, ambT, |tcs|, p);
    forall i | 0 <= i < |scs|
      ensures MatchedHere(partner, settled, scs[i]) <==> MatchedHere(partner, tcs, scs[i])
    {
      if partner(scs[i]).Some? { SettledAre(scs, tcs, partner, partner(scs[i]).value); }
    }
    forall i | 0 <= i < |tcs|
      ensures tcs[i] in settled <==> Partnered(scs, partner, tcs[i])
    {
      SettledAre(scs, tcs, partner, tcs[i]);
    }
    assert p in SourcePositions(scs, partner, settled, ambS, |scs|) <==> LeftHere(p, scs, tcs, partner, ambS);
    assert p in TargetPositions(tcs, settled, ambT, |tcs|) <==> RightHere(p, scs, tcs, partner, ambT);
  }

  lemma AlignedPositionsAre(scs: seq<NodeRef>, tcs: seq<NodeRef>, partner: Partner, p: AlignedPair)
    ensures p in AlignedPositions(MatchedPairs(scs, tcs, partner, |scs|)) <==> AlignedHere(p, scs, tcs, partner)
  {
    var matched := MatchedPairs(scs, tcs, partner, |scs|);
    assert scs[..|scs|] == scs;
    if p in AlignedPositions(matched) {
      var i :| 0 <= i < |matched| && AlignedPosition(matched[i]) == p;
      assert (matched[i].0, matched[i].1) in matched;
      MatchedPairsAre(scs, tcs, partner, |scs|, matched[i].0, matched[i].1);
    }
    if AlignedHere(p, scs, tcs, partner) {
      var s, t :| s in scs && t in tcs && partner(s) == Some(t) && p == AlignedPosition((s, t));
      MatchedPairsAre(scs, tcs, partner, |scs|, s, t);
      var i :| 0 <= i < |matched| && matched[i] == (s, t);
      assert AlignedPositions(matched)[i] == p;
    }
  }

  // ---------------------------------------------------------------- partition

  /** No source child and no target child sits in two positions. */
  ghost predicate Apart(pairs: seq<AlignedPair>)
  {
    (forall i, j :: 0 <= i < j < |pairs| && pairs[i].source.Some? ==> pairs[i].source != pairs[j].source) &&
    (forall i, j :: 0 <= i < j < |pairs| && pairs[i].target.Some? ==> pairs[i].target != pairs[j].target)
  }

  lemma ApartConcat(a: seq<AlignedPair>, b: seq<AlignedPair>)
    requires Apart(a) && Apart(b)
    requires forall i, j :: 0 <= i < |a| && 0 <= j < |b| && a[i].source.Some? ==> a[i].source != b[j].source
    requires forall i, j :: 0 <= i < |a| && 0 <= j < |b| && a[i].target.Some? ==> a[i].target != b[j].target
    ensures Apart(a + b)
  {
  }

  lemma {:induction false} MatchedInOrder(scs: seq<NodeRef>, tcs: seq<NodeRef>, partner: Partner, k: nat)
    returns (at: seq<nat>)
    requires k <= |scs|
    ensures |at| == |MatchedPairs(scs, tcs, partner, k)|
    ensures forall u | 0 <= u < |at| ::
      at[u] < k && MatchedHere(partner, tcs, scs[at[u]]) &&
      MatchedPairs(scs, tcs, partner, k)[u] == (scs[at[u]], partner(scs[at[u]]).value)
    ensures forall u, v :: 0 <= u < v < |at| ==> at[u] < at[v]
    ensures forall i :: 0 <= i < k && MatchedHere(partner, tcs, scs[i]) ==> i in at
  {
    at := [];
    for i := 0 to k
      invariant |at| == |MatchedPairs(scs, tcs, partner, i)|
      invariant forall u | 0 <= u < |at| ::
        at[u] < i && MatchedHere(partner, tcs, scs[at[u]]) &&
        MatchedPairs(scs, tcs, partner, i)[u] == (scs[at[u]], partner(scs[at[u]]).value)
      invariant forall u, v :: 0 <= u < v < |at| ==> at[u] < at[v]
      invariant forall j :: 0 <= j < i && MatchedHere(partner, tcs, scs[j]) ==> j in at
    {
      if MatchedHere(partner, tcs, scs[i]) { at := at + [i]; }
    }
  }

  lemma AlignedApart(scs: seq<NodeRef>, tcs: seq<NodeRef>, partner: Partner)
    requires Distinct(scs) && Injective(partner, scs)
    ensures Apart(AlignedPositions(MatchedPairs(scs, tcs, partner, |scs|)))
    ensures Distinct(TargetsOf(MatchedPairs(scs, tcs, partner, |scs|)))
  {
    var at := MatchedInOrder(scs, tcs, partner, |scs|);
    var matched := MatchedPairs(scs, tcs, partner, |scs|);
    forall u, v | 0 <= u < v < |matched|
      ensures matched[u].0 != matched[v].0 && matched[u].1 != matched[v].1
    {
      assert scs[at[u]] != scs[at[v]];
      assert scs[at[u]] in scs && scs[at[v]] in scs;
    }
  }

  lemma {:induction false} SourceSideApart(scs: seq<NodeRef>, partner: Partner, settled: seq<NodeRef>,
                                           ambiguous: AmbiguousIndex, k: nat)
    requires k <= |scs| && Distinct(scs)
    ensures var left := SourcePositions(scs, partner, settled, ambiguous, k);
      Apart(left) && forall i | 0 <= i < |left| ::
        left[i].target == None && left[i].source.Some? &&
        left[i].source.value in scs[..k] && !MatchedHere(partner, settled, left[i].source.value)
  {
    if k > 0 {
      SourceSideApart(scs, partner, settled, ambiguous, k - 1);
      assert scs[..k] == scs[..k - 1] + [scs[k - 1]] && scs[k - 1] !in scs[..k - 1];
    }
  }

  lemma {:induction false} TargetSideApart(tcs: seq<NodeRef>, settled: seq<NodeRef>, ambiguous: AmbiguousIndex, k: nat)
    requires k <= |tcs| && Distinct(tcs)
    ensures var right := TargetPositions(tcs, settled, ambiguous, k);
      Apart(right) && forall i | 0 <= i < |right| ::
        right[i].source == None && right[i].target.Some? &&
        right[i].target.value in tcs[..k] && right[i].target.value !in settled
  {
    if k > 0 {
      TargetSideApart(tcs, settled, ambiguous, k - 1);
      assert tcs[..k] == tcs[..k - 1] + [tcs[k - 1]] && tcs[k - 1] !in tcs[..k - 1];
    }
  }

  lemma RegionApart(scs: seq<NodeRef>, tcs: seq<NodeRef>, partner: Partner, ambS: AmbiguousIndex, ambT: AmbiguousIndex)
    requires Distinct(scs) && Distinct(tcs) && Injective(partner, scs)
    ensures Apart(PositionsFor(scs, tcs, partner, ambS, ambT))
  {
    var matched := MatchedPairs(scs, tcs, partner, |scs|);
    var settled := TargetsOf(matched);
    var aligned := AlignedPositions(matched);
    var left := SourcePositions(scs, partner, settled, ambS, |scs|);
    var right := TargetPositions(tcs, settled, ambT, |tcs|);
    AlignedApart(scs, tcs, partner);
    SourceSideApart(scs, partner, settled, ambS, |scs|);
    TargetSideApart(tcs, settled, ambT, |tcs|);
    forall i | 0 <= i < |matched|
      ensures partner(matched[i].0) == Some(matched[i].1) && matched[i].1 in settled
    {
      assert (matched[i].0, matched[i].1) in matched;
      MatchedPairsAre(scs, tcs, partner, |scs|, matched[i].0, matched[i].1);
      assert settled[i] == matched[i].1;
    }
    ApartConcat(aligned, left);
    ApartConcat(aligned + left, right);
  }

  lemma {:induction false} KeepAre(xs: seq<NodeRef>, kept: seq<NodeRef>, k: nat)
    requires k <= |xs| && Distinct(xs)
    ensures forall x :: x in Keep(xs, kept, k) <==> x in xs[..k] && x in kept
    ensures Distinct(Keep(xs, kept, k))
  {
    if k > 0 {
      KeepAre(xs, kept, k - 1);
      assert xs[..k] == xs[..k - 1] + [xs[k - 1]];
      assert xs[k - 1] !in xs[..k - 1];
    }
  }

  lemma SettledIsKept(scs: seq<NodeRef>, tcs: seq<NodeRef>, partner: Partner)
    requires Distinct(scs) && Distinct(tcs) && Injective(partner, scs)
    ensures var settled := TargetsOf(MatchedPairs(scs, tcs, partner, |scs|));
      multiset(settled) == multiset(Keep(tcs, settled, |tcs|)) && Distinct(settled) &&
      Distinct(Keep(tcs, settled, |tcs|)) && |settled| == |Keep(tcs, settled, |tcs|)|
  {
    var settled := TargetsOf(MatchedPairs(scs, tcs, partner, |scs|));
    AlignedApart(scs, tcs, partner);
    KeepAre(tcs, settled, |tcs|);
    assert tcs[..|tcs|] == tcs;
    forall t | t in settled
      ensures t in tcs
    {
      SettledAre(scs, tcs, partner, t);
    }
    DistinctSameMembers(settled, Keep(tcs, settled, |tcs|));
  }

  lemma {:induction false} SourceSideCount(scs: seq<NodeRef>, tcs: seq<NodeRef>, partner: Partner,
                                           settled: seq<NodeRef>, ambiguous: AmbiguousIndex, k: nat)
    requires k <= |scs|
    requires forall i ::
      0 <= i < |scs| ==> (MatchedHere(partner, settled, scs[i]) <==> MatchedHere(partner, tcs, scs[i]))
    ensures |MatchedPairs(scs, tcs, partner, k)| + |SourcePositions(scs, partner, settled, ambiguous, k)| == k
  {
    if k > 0 { SourceSideCount(scs, tcs, partner, settled, ambiguous, k - 1); }
  }

  lemma {:induction false} TargetSideCount(tcs: seq<NodeRef>, settled: seq<NodeRef>, ambiguous: AmbiguousIndex, k: nat)
    requires k <= |tcs|
    ensures |Keep(tcs, settled, k)| + |TargetPositions(tcs, settled, ambiguous, k)| == k
  {
    if k > 0 { TargetSideCount(tcs, settled, ambiguous, k - 1); }
  }

  ghost predicate MentionsSource(pairs: seq<AlignedPair>, sc: NodeRef)
  {
    exists i :: 0 <= i < |pairs| && pairs[i].source == Some(sc)
  }

  ghost predicate MentionsTarget(pairs: seq<AlignedPair>, tc: NodeRef)
  {
    exists i :: 0 <= i < |pairs| && pairs[i].target == Some(tc)
  }

  /** Every source child and every target child sits in exactly one position; nothing else does. */
  lemma RegionPartitionsChildren(scs: seq<NodeRef>, tcs: seq<NodeRef>, partner: Partner,
                                 ambS: AmbiguousIndex, ambT: AmbiguousIndex)
    requires Distinct(scs) && Distinct(tcs) && Injective(partner, scs)
    ensures var pairs := PositionsFor(scs, tcs, partner, ambS, ambT);
      (forall sc :: MentionsSource(pairs, sc) <==> sc in scs) &&
      (forall tc :: MentionsTarget(pairs, tc) <==> tc in tcs) &&
      Apart(pairs) &&
      |pairs| + |MatchedPairs(scs, tcs, partner, |scs|)| == |scs| + |tcs|
  {
    var pairs := PositionsFor(scs, tcs, partner, ambS, ambT);
    RegionApart(scs, tcs, partner, ambS, ambT);
    forall sc
      ensures MentionsSource(pairs, sc) <==> sc in scs
    {
      SourceMentioned(scs, tcs, partner, ambS, ambT, sc);
    }
    forall tc
      ensures MentionsTarget(pairs, tc) <==> tc in tcs
    {
      TargetMentioned(scs, tcs, partner, ambS, ambT, tc);
    }
    RegionCount(scs, tcs, partner, ambS, ambT);
  }

  lemma SourceMentioned(scs: seq<NodeRef>, tcs: seq<NodeRef>, partner: Partner,
                        ambS: AmbiguousIndex, ambT: AmbiguousIndex, sc: NodeRef)
    ensures MentionsSource(PositionsFor(scs, tcs, partner, ambS, ambT), sc) <==> sc in scs
  {
    var pairs := PositionsFor(scs, tcs, partner, ambS, ambT);
    if MentionsSource(pairs, sc) {
      var i :| 0 <= i < |pairs| && pairs[i].source == Some(sc);
      PositionsAre(scs, tcs, partner, ambS, ambT, pairs[i]);
    }
    if sc in scs {
      var p := if MatchedHere(partner, tcs, sc) then AlignedPosition((sc, partner(sc).value))
        else SourcePosition(sc, ambS);
      PositionsAre(scs, tcs, partner, ambS, ambT, p);
      assert p in pairs;
    }
  }

  lemma TargetMentioned(scs: seq<NodeRef>, tcs: seq<NodeRef>, partner: Partner,
                        ambS: AmbiguousIndex, ambT: AmbiguousIndex, tc: NodeRef)
    ensures MentionsTarget(PositionsFor(scs, tcs, partner, ambS, ambT), tc) <==> tc in tcs
  {
    var pairs := PositionsFor(scs, tcs, partner, ambS, ambT);
    if MentionsTarget(pairs, tc) {
      var i :| 0 <= i < |pairs| && pairs[i].target == Some(tc);
      PositionsAre(scs, tcs, partner, ambS, ambT, pairs[i]);
    }
    if tc in tcs {
      if Partnered(scs, partner, tc) {
        var sc :| sc in scs && partner(sc) == Some(tc);
        PositionsAre(scs, tcs, partner, ambS, ambT, AlignedPosition((sc, tc)));
        assert AlignedPosition((sc, tc)) in pairs;
      } else {
        PositionsAre(scs, tcs, partner, ambS, ambT, TargetPosition(tc, ambT));
        assert TargetPosition(tc, ambT) in pairs;
      }
    }
  }

  lemma RegionCount(scs: seq<NodeRef>, tcs: seq<NodeRef>, partner: Partner, ambS: AmbiguousIndex, ambT: AmbiguousIndex)
    requires Distinct(scs) && Distinct(tcs) && Injective(partner, scs)
    ensures |PositionsFor(scs, tcs, partner, ambS, ambT)| + |MatchedPairs(scs, tcs, partner, |scs|)| == |scs| + |tcs|
  {
    var settled := TargetsOf(MatchedPairs(scs, tcs, partner, |scs|));
    forall i | 0 <= i < |scs|
      ensures MatchedHere(partner, settled, scs[i]) <==> MatchedHere(partner, tcs, scs[i])
    {
      if partner(scs[i]).Some? { SettledAre(scs, tcs, partner, partner(scs[i]).value); }
    }
    SourceSideCount(scs, tcs, partner, settled, ambS, |scs|);
    TargetSideCount(tcs, settled, ambT, |tcs|);
    SettledIsKept(scs, tcs, partner);
  }

  // ---------------------------------------------------------------- order

  /** Two matched siblings stand in opposite orders on the two sides. */
  ghost predicate Inverted(scs: seq<NodeRef>, tcs: seq<NodeRef>, partner: Partner)
  {
    exists i, j, p, q :: 0 <= i < j < |scs| && 0 <= p < q < |tcs| &&
      partner(scs[i]) == Some(tcs[q]) && partner(scs[j]) == Some(tcs[p])
  }

  /** Crossing positions of two arrangements of the same values. */
  ghost predicate Crossed(a: seq<NodeRef>, b: seq<NodeRef>)
  {
    exists i, j, p, q :: 0 <= i < j < |a| && 0 <= p < q < |b| && a[i] == b[q] && a[j] == b[p]
  }

  lemma EqualIsNotCrossed(a: seq<NodeRef>)
    requires Distinct(a)
    ensures !Crossed(a, a)
  {
    forall i, j, p, q | 0 <= i < j < |a| && 0 <= p < q < |a| && a[i] == a[q]
      ensures a[j] != a[p]
    {
      assert i == q;
    }
  }

  lemma CrossedTail(a: seq<NodeRef>, b: seq<NodeRef>)
    requires a != [] && b != [] && Crossed(a[1..], b[1..])
    ensures Crossed(a, b)
  {
    var i, j, p, q :| 0 <= i < j < |a[1..]| && 0 <= p < q < |b[1..]| && a[1..][i] == b[1..][q] &&
      a[1..][j] == b[1..][p];
    assert a[i + 1] == b[q + 1] && a[j + 1] == b[p + 1];
  }

  lemma HeadsCross(a: seq<NodeRef>, b: seq<NodeRef>)
    requires a != [] && b != [] && multiset(a) == multiset(b) && a[0] != b[0]
    ensures Crossed(a, b)
  {
    assert a[0] in multiset(b) && b[0] in multiset(a);
    var q :| 0 <= q < |b| && b[q] == a[0];
    var j :| 0 <= j < |a| && a[j] == b[0];
    assert 0 <= 0 < j < |a| && 0 <= 0 < q < |b| && a[0] == b[q] && a[j] == b[0];
  }

  lemma TailsMatch(a: seq<NodeRef>, b: seq<NodeRef>)
    requires a != [] && b != [] && multiset(a) == multiset(b) && a[0] == b[0]
    ensures multiset(a[1..]) == multiset(b[1..])
  {
    assert a == [a[0]] + a[1..] && b == [b[0]] + b[1..];
    assert multiset(a[1..]) == multiset(a) - multiset{a[0]} && multiset(b[1..]) == multiset(b) - multiset{b[0]};
  }

  lemma {:induction false} DifferentIsCrossed(a: seq<NodeRef>, b: seq<NodeRef>)
    requires Distinct(a) && Distinct(b) && multiset(a) == multiset(b) && a != b
    ensures Crossed(a, b)
  {
    assert |a| == |multiset(a)| == |multiset(b)| == |b|;
    if a[0] == b[0] {
      TailsMatch(a, b);
      assert a == [a[0]] + a[1..] && b == [b[0]] + b[1..];
      DifferentIsCrossed(a[1..], b[1..]);
      CrossedTail(a, b);
    } else {
      HeadsCross(a, b);
    }
  }

  lemma KeptInOrder(xs: seq<NodeRef>, kept: seq<NodeRef>, k: nat) returns (at: seq<nat>)
    requires k <= |xs|
    ensures |at| == |Keep(xs, kept, k)|
    ensures forall u :: 0 <= u < |at| ==> at[u] < k && Keep(xs, kept, k)[u] == xs[at[u]]
    ensures forall u, v :: 0 <= u < v < |at| ==> at[u] < at[v]
    ensures forall i :: 0 <= i < k && xs[i] in kept ==> i in at
  {
    at := [];
    for i := 0 to k
      invariant |at| == |Keep(xs, kept, i)|
      invariant forall u :: 0 <= u < |at| ==> at[u] < i && Keep(xs, kept, i)[u] == xs[at[u]]
      invariant forall u, v :: 0 <= u < v < |at| ==> at[u] < at[v]
      invariant forall j :: 0 <= j < i && xs[j] in kept ==> j in at
    {
      if xs[i] in kept { at := at + [i]; }
    }
  }

  lemma InvertedIsCrossed(scs: seq<NodeRef>, tcs: seq<NodeRef>, partner: Partner)
    requires Inverted(scs, tcs, partner)
    ensures var settled := TargetsOf(MatchedPairs(scs, tcs, partner, |scs|));
      Crossed(settled, Keep(tcs, settled, |tcs|))
  {
    var i, j, p, q :| 0 <= i < j < |scs| && 0 <= p < q < |tcs| &&
      partner(scs[i]) == Some(tcs[q]) && partner(scs[j]) == Some(tcs[p]);
    var u, v := MatchedSiblings(scs, tcs, partner, i, j);
    var settled := TargetsOf(MatchedPairs(scs, tcs, partner, |scs|));
    assert settled[u] == tcs[q] && settled[v] == tcs[p];
    KeptSiblings(tcs, settled, p, q, v, u);
  }

  lemma MatchedSiblings(scs: seq<NodeRef>, tcs: seq<NodeRef>, partner: Partner, i: nat, j: nat) returns (u: nat, v: nat)
    requires i < j < |scs| && MatchedHere(partner, tcs, scs[i]) && MatchedHere(partner, tcs, scs[j])
    ensures var matched := MatchedPairs(scs, tcs, partner, |scs|);
      u < v < |matched| && matched[u].1 == partner(scs[i]).value && matched[v].1 == partner(scs[j]).value
  {
    var at := MatchedInOrder(scs, tcs, partner, |scs|);
    u, v := InOrder(at, i, j);
  }

  lemma KeptSiblings(tcs: seq<NodeRef>, settled: seq<NodeRef>, p: nat, q: nat, v: nat, u: nat)
    requires p < q < |tcs| && u < v < |settled| && settled[u] == tcs[q] && settled[v] == tcs[p]
    ensures Crossed(settled, Keep(tcs, settled, |tcs|))
  {
    var on := KeptInOrder(tcs, settled, |tcs|);
    assert tcs[p] in settled && tcs[q] in settled;
    var x, y := InOrder(on, p, q);
    var kept := Keep(tcs, settled, |tcs|);
    assert settled[u] == kept[y] && settled[v] == kept[x];
  }

  lemma InOrder(at: seq<nat>, i: nat, j: nat) returns (u: nat, v: nat)
    requires i in at && j in at && i < j
    requires forall u, v :: 0 <= u < v < |at| ==> at[u] < at[v]
    ensures u < v < |at| && at[u] == i && at[v] == j
  {
    u :| 0 <= u < |at| && at[u] == i;
    v :| 0 <= v < |at| && at[v] == j;
  }

  lemma InvertedAt(scs: seq<NodeRef>, tcs: seq<NodeRef>, partner: Partner, i: nat, j: nat, p: nat, q: nat)
    requires i < j < |scs| && p < q < |tcs| && partner(scs[i]) == Some(tcs[q]) && partner(scs[j]) == Some(tcs[p])
    ensures Inverted(scs, tcs, partner)
  {
  }

  lemma CrossedIsInverted(scs: seq<NodeRef>, tcs: seq<NodeRef>, partner: Partner)
    requires var settled := TargetsOf(MatchedPairs(scs, tcs, partner, |scs|));
      Crossed(settled, Keep(tcs, settled, |tcs|))
    ensures Inverted(scs, tcs, partner)
  {
    var settled := TargetsOf(MatchedPairs(scs, tcs, partner, |scs|));
    var kept := Keep(tcs, settled, |tcs|);
    var at := MatchedInOrder(scs, tcs, partner, |scs|);
    var on := KeptInOrder(tcs, settled, |tcs|);
    var u, v, x, y :| 0 <= u < v < |settled| && 0 <= x < y < |kept| && settled[u] == kept[y] && settled[v] == kept[x];
    assert at[u] < at[v] && on[x] < on[y];
    InvertedAt(scs, tcs, partner, at[u], at[v], on[x], on[y]);
  }

  /**
   * The aligner's order flag, an inversion among matched siblings, and a non-ALIGN position in the
   * longest-common-subsequence script of the two orders are one and the same thing.
   */
  lemma OrderChangedIffInverted(scs: seq<NodeRef>, tcs: seq<NodeRef>, partner: Partner)
    requires Distinct(scs) && Distinct(tcs) && Injective(partner, scs)
    ensures OrderChanged(scs, tcs, partner) <==> Inverted(scs, tcs, partner)
    ensures var settled := TargetsOf(MatchedPairs(scs, tcs, partner, |scs|));
      var script := Lcs.Script(settled, Keep(tcs, settled, |tcs|));
      OrderChanged(scs, tcs, partner) <==> exists i :: 0 <= i < |script| && script[i].op != Lcs.Align
  {
    var settled := TargetsOf(MatchedPairs(scs, tcs, partner, |scs|));
    var kept := Keep(tcs, settled, |tcs|);
    SettledIsKept(scs, tcs, partner);
    Lcs.AllAlignedIffEqual(settled, kept);
    if Inverted(scs, tcs, partner) {
      InvertedIsCrossed(scs, tcs, partner);
      EqualIsNotCrossed(settled);
    }
    if settled != kept {
      DifferentIsCrossed(settled, kept);
      CrossedIsInverted(scs, tcs, partner);
    }
    if |settled| < 2 { ShortIsFixed(settled, kept); }
  }

  lemma ShortIsFixed(a: seq<NodeRef>, b: seq<NodeRef>)
    requires |a| < 2 && |a| == |b| && multiset(a) == multiset(b)
    ensures a == b
  {
    if |a| == 1 { assert a[0] in multiset(b); }
  }
}
