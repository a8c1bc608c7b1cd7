/** Reachability in an undirected graph given by a set of edges: the
    equivalence relation the clustering step is meant to compute. */
module Connectivity {

  type Edge = (nat, nat)

  predicate Adjacent(edges: set<Edge>, u: nat, v: nat)
  {
    (u, v) in edges || (v, u) in edges
  }

  /** `w` is a walk: consecutive nodes are joined by an edge. */
  ghost predicate IsWalk(edges: set<Edge>, w: seq<nat>)
  {
    |w| > 0 && forall k :: 0 <= k < |w| - 1 ==> Adjacent(edges, w[k], w[k + 1])
  }

  /** Some walk leads from `x` to `y`. */
  ghost predicate Connected(edges: set<Edge>, x: nat, y: nat)
  {
    exists w :: IsWalk(edges, w) && w[0] == x && w[|w| - 1] == y
  }

  lemma ConnectedRefl(edges: set<Edge>, x: nat)
    ensures Connected(edges, x, x)
  {
    assert IsWalk(edges, [x]);
  }

  lemma ConnectedEdge(edges: set<Edge>, x: nat, y: nat)
    requires Adjacent(edges, x, y)
    ensures Connected(edges, x, y)
  {
    assert IsWalk(edges, [x, y]);
  }

  lemma ConnectedSym(edges: set<Edge>, x: nat, y: nat)
    requires Connected(edges, x, y)
    ensures Connected(edges, y, x)
  {
    var w :| IsWalk(edges, w) && w[0] == x && w[|w| - 1] == y;
    var r := seq(|w|, k requires 0 <= k < |w| => w[|w| - 1 - k]);
    forall k | 0 <= k < |r| - 1
      ensures Adjacent(edges, r[k], r[k + 1])
    {
      assert Adjacent(edges, w[|w| - 2 - k], w[|w| - 1 - k]);
    }
    assert IsWalk(edges, r);
  }

  lemma ConnectedTrans(edges: set<Edge>, x: nat, y: nat, z: nat)
    requires Connected(edges, x, y) && Connected(edges, y, z)
    ensures Connected(edges, x, z)
  {
    var w1 :| IsWalk(edges, w1) && w1[0] == x && w1[|w1| - 1] == y;
    var w2 :| IsWalk(edges, w2) && w2[0] == y && w2[|w2| - 1] == z;
    var w := w1 + w2[1..];
    forall k | 0 <= k < |w| - 1
      ensures Adjacent(edges, w[k], w[k + 1])
    {
      if k < |w1| - 1 {
        assert w[k] == w1[k] && w[k + 1] == w1[k + 1];
      } else {
        var m := k - |w1| + 1;
        assert w[k] == w2[m] && w[k + 1] == w2[m + 1];
      }
    }
    assert IsWalk(edges, w);
  }

  lemma ConnectedMono(edges: set<Edge>, more: set<Edge>, x: nat, y: nat)
    requires edges <= more
    requires Connected(edges, x, y)
    ensures Connected(more, x, y)
  {
    var w :| IsWalk(edges, w) && w[0] == x && w[|w| - 1] == y;
    assert IsWalk(more, w);
  }

  /** Reaching `y` from `x` once the edge `a`-`b` is added: directly, or
      through the new edge in one of its two directions. */
  ghost predicate ConnectedVia(edges: set<Edge>, a: nat, b: nat, x: nat, y: nat)
  {
    || Connected(edges, x, y)
    || (Connected(edges, x, a) && Connected(edges, b, y))
    || (Connected(edges, x, b) && Connected(edges, a, y))
  }

  /** Adding one edge joins exactly the two components it touches. */
  lemma ConnectedAddEdge(edges: set<Edge>, a: nat, b: nat, x: nat, y: nat)
    ensures Connected(edges + {(a, b)}, x, y) <==> ConnectedVia(edges, a, b, x, y)
  {
    var more := edges + {(a, b)};
    if Connected(more, x, y) {
      var w :| IsWalk(more, w) && w[0] == x && w[|w| - 1] == y;
      WalkSplits(edges, a, b, w);
    }
    if ConnectedVia(edges, a, b, x, y) {
      ConnectedEdge(more, a, b);
      ConnectedSym(more, a, b);
      if Connected(edges, x, y) {
        ConnectedMono(edges, more, x, y);
      } else if Connected(edges, x, a) && Connected(edges, b, y) {
        ConnectedMono(edges, more, x, a);
        ConnectedMono(edges, more, b, y);
        ConnectedTrans(more, x, a, b);
        ConnectedTrans(more, x, b, y);
      } else {
        ConnectedMono(edges, more, x, b);
        ConnectedMono(edges, more, a, y);
        ConnectedTrans(more, x, b, a);
        ConnectedTrans(more, x, a, y);
      }
    }
  }

  lemma {:induction false} WalkSplits(edges: set<Edge>, a: nat, b: nat, w: seq<nat>)
    requires IsWalk(edges + {(a, b)}, w)
    ensures ConnectedVia(edges, a, b, w[0], w[|w| - 1])
    decreases |w|
  {
    var x := w[0];
    if |w| == 1 {
      ConnectedRefl(edges, x);
    } else {
      var w' := w[..|w| - 1];
      assert IsWalk(edges + {(a, b)}, w');
      WalkSplits(edges, a, b, w');
      var z := w'[|w'| - 1];
      var y := w[|w| - 1];
      assert Adjacent(edges + {(a, b)}, z, y);
      if Adjacent(edges, z, y) {
        ConnectedEdge(edges, z, y);
        if Connected(edges, x, z) {
          ConnectedTrans(edges, x, z, y);
        } else if Connected(edges, x, a) && Connected(edges, b, z) {
          ConnectedTrans(edges, b, z, y);
        } else {
          ConnectedTrans(edges, a, z, y);
        }
      } else if z == a && y == b {
        ConnectedRefl(edges, b);
        if Connected(edges, x, a) && Connected(edges, b, z) {
          ConnectedSym(edges, b, a);
          ConnectedTrans(edges, x, a, b);
        }
      } else {
        assert z == b && y == a;
        ConnectedRefl(edges, a);
        if Connected(edges, x, b) && Connected(edges, a, z) {
          ConnectedSym(edges, a, b);
          ConnectedTrans(edges, x, b, a);
        }
      }
    }
  }

  /** A node no edge touches is connected to itself only. */
  lemma ConnectedIsolated(edges: set<Edge>, x: nat, y: nat)
    requires forall z :: !Adjacent(edges, x, z)
    requires Connected(edges, x, y)
    ensures y == x
  {
    var w :| IsWalk(edges, w) && w[0] == x && w[|w| - 1] == y;
    WalkLeavesStart(edges, w);
  }

  /** A walk of more than one node leaves its start along an edge. */
  lemma WalkLeavesStart(edges: set<Edge>, w: seq<nat>)
    requires IsWalk(edges, w)
    ensures |w| == 1 || exists z :: Adjacent(edges, w[0], z)
  {
    if |w| > 1 {
      assert Adjacent(edges, w[0], w[1]);
    }
  }

  /** Without edges every node is alone. */
  lemma ConnectedNoEdges(x: nat, y: nat)
    ensures Connected({}, x, y) <==> x == y
  {
    if x == y {
      ConnectedRefl({}, x);
    }
    if Connected({}, x, y) {
      ConnectedIsolated({}, x, y);
    }
  }
}
