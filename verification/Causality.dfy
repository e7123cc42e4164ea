/** The causal graph contract: a depth-first search rejects exactly the link sets with a cycle. */
module Causality {
  import opened Ordering

  type OperationRef = string

  datatype CausalLink = CausalLink(root: OperationRef, derived: OperationRef)
  {
    /** The link constructor rejects a self link. */
    predicate WellFormed()
    {
      root != derived
    }
  }

  type Adjacency = map<OperationRef, seq<OperationRef>>

  // ---------------------------------------------------------------- the declarative property

  ghost predicate Explains(links: seq<CausalLink>, a: OperationRef, b: OperationRef)
  {
    CausalLink(a, b) in links
  }

  ghost predicate Walk(links: seq<CausalLink>, p: seq<OperationRef>)
  {
    forall i :: 0 <= i < |p| - 1 ==> Explains(links, p[i], p[i + 1])
  }

  /** A walk of at least one link that ends where it starts. */
  ghost predicate Cycle(links: seq<CausalLink>, p: seq<OperationRef>)
  {
    |p| >= 2 && Walk(links, p) && p[0] == p[|p| - 1]
  }

  ghost predicate Cyclic(links: seq<CausalLink>)
  {
    exists p :: Cycle(links, p)
  }

  // ---------------------------------------------------------------- adjacency

  ghost predicate IsAdjacency(links: seq<CausalLink>, adjacency: Adjacency)
  {
    forall a, b :: Explains(links, a, b) <==> a in adjacency && b in adjacency[a]
  }

  function Successors(adjacency: Adjacency, a: OperationRef): seq<OperationRef>
  {
    if a in adjacency then adjacency[a] else []
  }

  /** Group links by root; `order` lists the keys as they were first seen. */
  method BuildAdjacency(links: seq<CausalLink>) returns (adjacency: Adjacency, order: seq<OperationRef>)
    ensures IsAdjacency(links, adjacency)
    ensures forall a :: a in adjacency <==> a in order
    ensures forall a :: a in adjacency ==> adjacency[a] != []
  {
    adjacency, order := map[], [];
    for i := 0 to |links|
      invariant forall a, b :: CausalLink(a, b) in links[..i] <==> a in adjacency && b in adjacency[a]
      invariant forall a :: a in adjacency <==> a in order
      invariant forall a :: a in adjacency ==> adjacency[a] != []
    {
      var l := links[i];
      assert links[..i + 1] == links[..i] + [l];
      if l.root !in adjacency {
        order := order + [l.root];
      }
      adjacency := adjacency[l.root := Successors(adjacency, l.root) + [l.derived]];
    }
    assert links[..|links|] == links;
  }

  // ---------------------------------------------------------------- the finish order

  /** Every node finished after all its successors. */
  ghost predicate Settled(links: seq<CausalLink>, finished: seq<OperationRef>)
  {
    Distinct(finished) &&
    forall i, b :: 0 <= i < |finished| && Explains(links, finished[i], b) ==> b in finished[..i]
  }

  lemma SettledGrows(links: seq<CausalLink>, finished: seq<OperationRef>, n: OperationRef)
    requires Settled(links, finished) && n !in finished && forall b :: Explains(links, n, b) ==> b in finished
    ensures Settled(links, finished + [n])
  {
    var grown := finished + [n];
    forall i, b | 0 <= i < |grown| && Explains(links, grown[i], b)
      ensures b in grown[..i]
    {
      if i < |finished| { assert grown[..i] == finished[..i]; } else { assert grown[..i] == finished; }
    }
  }

  /** A walk from a finished node only meets nodes that finished earlier. */
  lemma {:induction false} WalkDescends(links: seq<CausalLink>, finished: seq<OperationRef>, p: seq<OperationRef>,
                                        i: nat, k: nat)
    requires Settled(links, finished) && Walk(links, p) && 0 < k < |p| && i < |finished| && p[0] == finished[i]
    ensures p[k] in finished[..i]
    decreases k
  {
    if k == 1 {
      assert Explains(links, p[0], p[1]);
    } else {
      WalkDescends(links, finished, p, i, k - 1);
      var j :| 0 <= j < i && finished[j] == p[k - 1];
      assert Explains(links, finished[j], p[k]);
      assert p[k] in finished[..j];
    }
  }

  /** If every root of a link is finished, there is no cycle. */
  lemma SettledIsAcyclic(links: seq<CausalLink>, finished: seq<OperationRef>)
    requires Settled(links, finished) && forall a, b :: Explains(links, a, b) ==> a in finished
    ensures !Cyclic(links)
  {
    forall p
      ensures !Cycle(links, p)
    {
      if |p| >= 2 && Walk(links, p) {
        assert Explains(links, p[0], p[1]);
        var i :| 0 <= i < |finished| && finished[i] == p[0];
        WalkDescends(links, finished, p, i, |p| - 1);
      }
    }
  }

  // ---------------------------------------------------------------- the search

  /** A link back into the current path closes a cycle. */
  lemma BackLinkCloses(links: seq<CausalLink>, path: seq<OperationRef>, next: OperationRef)
    requires path != [] && Walk(links, path) && Explains(links, path[|path| - 1], next) && next in path
    ensures Cyclic(links)
  {
    var m :| 0 <= m < |path| && path[m] == next;
    var p := path[m..] + [next];
    forall i | 0 <= i < |p| - 1
      ensures Explains(links, p[i], p[i + 1])
    {
      if i + 1 < |path| - m { assert Explains(links, path[m + i], path[m + i + 1]); }
    }
    assert Cycle(links, p);
  }

  class Search {
    const links: seq<CausalLink>
    const adjacency: Adjacency
    var visiting: set<OperationRef>
    var visited: set<OperationRef>
    /** The visited nodes in the order in which their calls returned. */
    ghost var finished: seq<OperationRef>

    ghost predicate Valid()
      reads this
    {
      visiting !! visited && IsAdjacency(links, adjacency) && Settled(links, finished) &&
      forall n :: n in visited <==> n in finished
    }

    constructor (links: seq<CausalLink>, adjacency: Adjacency)
      requires IsAdjacency(links, adjacency)
      ensures Valid() && this.links == links && this.adjacency == adjacency && visiting == {} && visited == {}
    {
      this.links := links;
      this.adjacency := adjacency;
      visiting := {};
      visited := {};
      finished := [];
    }

    /** Explores `node` at the end of `path`; `all` bounds the nodes, so the recursion is finite. */
    method HasCycle(node: OperationRef, ghost path: seq<OperationRef>, ghost all: set<OperationRef>)
      returns (found: bool)
      requires Valid() && node !in visiting && node !in visited
      requires node in all && forall a, b :: Explains(links, a, b) ==> b in all
      requires Walk(links, path + [node]) && forall n :: n in visiting <==> n in path
      modifies this
      ensures found ==> Cyclic(links)
      ensures !found ==> Valid() && visiting == old(visiting) && old(visited) + {node} <= visited
      decreases all - visiting - visited
    {
      ghost var here := path + [node];
      visiting := visiting + {node};
      var next := Successors(adjacency, node);
      for k := 0 to |next|
        invariant Valid() && visiting == old(visiting) + {node} && old(visited) <= visited && node !in visited
        invariant forall j :: 0 <= j < k ==> next[j] in visited
      {
        assert Explains(links, node, next[k]);
        if next[k] in visiting {
          BackLinkCloses(links, here, next[k]);
          return true;
        }
        if next[k] !in visited {
          assert node in old(all - visiting - visited) && node !in all - visiting - visited;
          found := HasCycle(next[k], here, all);
          if found {
            return true;
          }
        }
      }
      visiting := visiting - {node};
      visited := visited + {node};
      SettledGrows(links, finished, node);
      finished := finished + [node];
      return false;
    }
  }

  /**
   * `_acyclic`: the graph is rejected if and only if its links contain a directed cycle; on
   * acceptance the order in which the calls returned lists every effect before its causes.
   */
  method CheckAcyclic(links: seq<CausalLink>) returns (accepted: bool, ghost order: seq<OperationRef>)
    ensures accepted <==> !Cyclic(links)
    ensures accepted ==> Settled(links, order) && forall l :: l in links ==> l.root in order && l.derived in order
  {
    var adjacency, starts := BuildAdjacency(links);
    order := [];
    ghost var all := (set l | l in links :: l.root) + (set l | l in links :: l.derived);
    var search := new Search(links, adjacency);
    for i := 0 to |starts|
      invariant search.Valid() && search.visiting == {} && search.links == links
      invariant forall k :: 0 <= k < i ==> starts[k] in search.visited
    {
      if starts[i] !in search.visited {
        assert starts[i] in starts && Explains(links, starts[i], adjacency[starts[i]][0]);
        var found := search.HasCycle(starts[i], [], all);
        if found {
          return false, order;
        }
      }
    }
    order := search.finished;
    forall l | l in links
      ensures l.root in order && l.derived in order
    {
      assert l == CausalLink(l.root, l.derived) && Explains(links, l.root, l.derived);
      var i :| 0 <= i < |order| && order[i] == l.root;
      assert l.derived in order[..i];
    }
    SettledIsAcyclic(links, order);
    return true, order;
  }
}
