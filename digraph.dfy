/** Finite directed graphs on node ids: walks, cycles reachable from a node,
    acyclicity, rank certificates (what a finished depth-first search leaves
    behind) and the reach sets that measure how far an execution can still go. */
module Digraph {
  import opened Util

  /** Each node's set of successors. */
  type Graph = map<nat, set<nat>>

  ghost predicate Edge(g: Graph, a: nat, b: nat)
  {
    a in g && b in g[a]
  }

  /** A non-empty sequence of nodes, each linked to the next by an edge. */
  ghost predicate IsWalk(g: Graph, w: seq<nat>)
  {
    |w| >= 1 && forall i :: 0 <= i < |w| - 1 ==> Edge(g, w[i], w[i + 1])
  }

  /** A walk followed by an edge out of its last node is a longer walk. */
  lemma WalkExtend(g: Graph, w: seq<nat>, x: nat)
    requires IsWalk(g, w) && Edge(g, w[|w| - 1], x)
    ensures IsWalk(g, w + [x]) && (w + [x])[0] == w[0]
  {
    var w' := w + [x];
    forall i | 0 <= i < |w'| - 1 ensures Edge(g, w'[i], w'[i + 1]) {
      if i < |w| - 1 {
        assert w'[i] == w[i] && w'[i + 1] == w[i + 1];
      }
    }
  }

  /** An edge into the start of a walk gives a walk one node longer. */
  lemma WalkPrepend(g: Graph, a: nat, w: seq<nat>)
    requires IsWalk(g, w) && Edge(g, a, w[0])
    ensures IsWalk(g, [a] + w)
  {
    var w' := [a] + w;
    forall i | 0 <= i < |w'| - 1 ensures Edge(g, w'[i], w'[i + 1]) {
      if i > 0 {
        assert w'[i] == w[i - 1] && w'[i + 1] == w[i];
      }
    }
  }

  /** An edge back to a node already on a walk closes a cycle reachable from the walk's start. */
  lemma BackEdgeCycle(g: Graph, w: seq<nat>, x: nat)
    requires IsWalk(g, w) && Edge(g, w[|w| - 1], x) && x in w
    ensures ReachesCycle(g, w[0])
  {
    WalkExtend(g, w, x);
    var w' := w + [x];
    var k :| 0 <= k < |w| && w[k] == x;
    assert w'[k] == w'[|w'| - 1];
  }

  /** A node whose successors are all ranked can be ranked above every rank in use. */
  lemma RankFinished(g: Graph, rank: map<nat, nat>, a: nat) returns (rank': map<nat, nat>)
    requires Ranked(g, rank) && a !in rank
    requires forall x :: x in rank ==> rank[x] < |rank|
    requires forall b :: Edge(g, a, b) ==> b in rank
    ensures rank' == rank[a := |rank|] && forall x :: x in rank' <==> x in rank || x == a
    ensures Ranked(g, rank')
    ensures forall x :: x in rank' ==> rank'[x] < |rank'|
  {
    rank' := rank[a := |rank|];
  }

  /** Some walk from `r` visits a node twice, i.e. `r` leads into a cycle. */
  ghost predicate ReachesCycle(g: Graph, r: nat)
  {
    exists w: seq<nat> :: IsWalk(g, w) && w[0] == r && !Distinct(w)
  }

  /** No walk repeats a node (self-loops included). */
  ghost predicate Acyclic(g: Graph)
  {
    forall w: seq<nat> :: IsWalk(g, w) ==> Distinct(w)
  }

  /** A self-loop is a cycle. */
  lemma SelfLoopCyclic(g: Graph, a: nat)
    requires Edge(g, a, a)
    ensures ReachesCycle(g, a) && !Acyclic(g)
  {
    var w := [a, a];
    assert w[0] == w[1];
    assert IsWalk(g, w) && w[0] == a && !Distinct(w);
  }

  /** Every edge ends at a node of the graph. */
  ghost predicate Closed(g: Graph)
  {
    forall a, b :: Edge(g, a, b) ==> b in g
  }

  /** `rank` covers a set of nodes closed under edges, and ranks fall strictly along every edge. */
  ghost predicate Ranked(g: Graph, rank: map<nat, nat>)
  {
    forall a, b :: a in rank && Edge(g, a, b) ==> b in rank && rank[b] < rank[a]
  }

  lemma {:induction false} RankedWalkDescends(g: Graph, rank: map<nat, nat>, w: seq<nat>)
    requires Ranked(g, rank) && IsWalk(g, w) && w[0] in rank
    ensures forall i :: 0 <= i < |w| ==> w[i] in rank
    ensures forall i, j :: 0 <= i < j < |w| ==> rank[w[j]] < rank[w[i]]
    decreases |w|
  {
    if |w| > 1 {
      var w' := w[..|w| - 1];
      assert IsWalk(g, w') by {
        forall i | 0 <= i < |w'| - 1 ensures Edge(g, w'[i], w'[i + 1]) {
          assert w'[i] == w[i] && w'[i + 1] == w[i + 1];
        }
      }
      RankedWalkDescends(g, rank, w');
      assert Edge(g, w[|w| - 2], w[|w| - 1]);
      forall i, j | 0 <= i < j < |w| ensures rank[w[j]] < rank[w[i]] {
        if j < |w| - 1 {
          assert w[i] == w'[i] && w[j] == w'[j];
        } else if i < |w| - 2 {
          assert w[i] == w'[i] && w[|w| - 2] == w'[|w| - 2];
        }
      }
    }
  }

  /** A walk that starts at a ranked node never repeats a node. */
  lemma RankedWalkDistinct(g: Graph, rank: map<nat, nat>, w: seq<nat>)
    requires Ranked(g, rank) && IsWalk(g, w) && w[0] in rank
    ensures Distinct(w)
  {
    RankedWalkDescends(g, rank, w);
  }

  /** A ranked node leads into no cycle. */
  lemma RankedNoCycle(g: Graph, rank: map<nat, nat>, r: nat)
    requires Ranked(g, rank) && r in rank
    ensures !ReachesCycle(g, r)
  {
    forall w: seq<nat> | IsWalk(g, w) && w[0] == r ensures Distinct(w) {
      RankedWalkDistinct(g, rank, w);
    }
  }

  /** If no node with outgoing edges leads into a cycle, the graph is acyclic. */
  lemma AcyclicWhenNoRootCycles(g: Graph, roots: set<nat>)
    requires forall a :: a in g ==> a in roots
    requires forall r :: r in roots ==> !ReachesCycle(g, r)
    ensures Acyclic(g)
  {
    forall w: seq<nat> | IsWalk(g, w) ensures Distinct(w) {
      if |w| >= 2 {
        assert w[0] in roots by {
          assert Edge(g, w[0], w[1]);
        }
      }
    }
  }

  /** In an acyclic graph no node leads into a cycle. */
  lemma AcyclicNoCycle(g: Graph, r: nat)
    requires Acyclic(g)
    ensures !ReachesCycle(g, r)
  {
  }

  /** Every walk of `g` is a walk of `h`, so `h` acyclic makes `g` acyclic. */
  lemma AcyclicSub(g: Graph, h: Graph)
    requires forall a, b :: Edge(g, a, b) ==> Edge(h, a, b)
    requires Acyclic(h)
    ensures Acyclic(g)
  {
    forall w: seq<nat> | IsWalk(g, w) ensures Distinct(w) {
      assert IsWalk(h, w);
    }
  }

  ghost predicate Reachable(g: Graph, a: nat, b: nat)
  {
    exists w: seq<nat> :: IsWalk(g, w) && w[0] == a && w[|w| - 1] == b
  }

  /** The nodes of the graph that a walk from `a` can reach, `a` included. */
  ghost function Reach(g: Graph, a: nat): set<nat>
  {
    set b | b in g && Reachable(g, a, b)
  }

  /** Following an edge of a closed acyclic graph strictly shrinks the reach set. */
  lemma ReachShrinks(g: Graph, a: nat, b: nat)
    requires Acyclic(g) && Edge(g, a, b)
    ensures |Reach(g, b)| < |Reach(g, a)|
  {
    forall x | x in Reach(g, b) ensures x in Reach(g, a) {
      var w :| IsWalk(g, w) && w[0] == b && w[|w| - 1] == x;
      var w' := [a] + w;
      assert IsWalk(g, w') by {
        forall i | 0 <= i < |w'| - 1 ensures Edge(g, w'[i], w'[i + 1]) {
          if i > 0 {
            assert w'[i] == w[i - 1] && w'[i + 1] == w[i];
          }
        }
      }
      assert w'[0] == a && w'[|w'| - 1] == x;
    }
    assert a in Reach(g, a) by {
      assert IsWalk(g, [a]);
    }
    forall w: seq<nat> | IsWalk(g, w) && w[0] == b ensures w[|w| - 1] != a {
      var w' := [a] + w;
      assert IsWalk(g, w') by {
        forall i | 0 <= i < |w'| - 1 ensures Edge(g, w'[i], w'[i + 1]) {
          if i > 0 {
            assert w'[i] == w[i - 1] && w'[i + 1] == w[i];
          }
        }
      }
      assert Distinct(w');
      assert w'[0] == a && 0 < |w'| - 1 && w'[|w'| - 1] == w[|w| - 1];
      assert w'[0] != w'[|w'| - 1];
    }
    assert a !in Reach(g, b);
    assert Reach(g, b) < Reach(g, a);
    StrictSubsetSmaller(Reach(g, b), Reach(g, a));
  }

  /** In an acyclic graph every walk is repetition-free, so it is no longer than the node set it lives in. */
  lemma AcyclicWalkBound(g: Graph, w: seq<nat>, nodes: set<nat>)
    requires Acyclic(g) && IsWalk(g, w)
    requires forall i :: 0 <= i < |w| ==> w[i] in nodes
    ensures |w| <= |nodes|
  {
    DistinctSeqBound(w, nodes);
  }
}
