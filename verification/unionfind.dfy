/** The `UnionFind` class (cs336_data/deduplication.py) as a value: the
    parent list is passed in and the updated list returned. `find` halves the
    path it walks (every visited node is re-pointed at its grandparent) and
    `union` hangs the second root under the first, with no rank heuristic. */
module UnionFind {

  /** `rank` witnesses that `parent` is a forest over `0..|parent|-1`: every
      parent is in range and every non-root's parent ranks strictly higher,
      so following parents always ends at a root. */
  ghost predicate Ranked(parent: seq<nat>, rank: seq<nat>)
  {
    && |rank| == |parent|
    && forall i :: 0 <= i < |parent| ==>
         parent[i] < |parent| && (parent[i] != i ==> rank[i] < rank[parent[i]])
  }

  /** The forest invariant of the structure. */
  ghost predicate Valid(parent: seq<nat>)
  {
    exists rank :: Ranked(parent, rank)
  }

  /** The largest rank. */
  function MaxRank(rank: seq<nat>): (m: nat)
    ensures forall i :: 0 <= i < |rank| ==> rank[i] <= m
  {
    if |rank| == 0 then 0
    else
      var m := MaxRank(rank[1..]);
      assert forall i :: 1 <= i < |rank| ==> rank[i] == rank[1..][i - 1];
      if rank[0] < m then m else rank[0]
  }

  /** The root reached from `i` by following parents. */
  ghost function RootBy(parent: seq<nat>, rank: seq<nat>, i: nat): (r: nat)
    requires Ranked(parent, rank) && i < |parent|
    ensures r < |parent| && parent[r] == r
    decreases MaxRank(rank) - rank[i]
  {
    if parent[i] == i then i else RootBy(parent, rank, parent[i])
  }

  /** The root does not depend on which ranking witnessed termination. */
  lemma {:induction false} RootByIndependent(parent: seq<nat>, r1: seq<nat>, r2: seq<nat>, i: nat)
    requires Ranked(parent, r1) && Ranked(parent, r2) && i < |parent|
    ensures RootBy(parent, r1, i) == RootBy(parent, r2, i)
    decreases MaxRank(r1) - r1[i]
  {
    if parent[i] != i {
      RootByIndependent(parent, r1, r2, parent[i]);
    }
  }

  /** The root of `i`'s tree. */
  ghost function Root(parent: seq<nat>, i: nat): nat
    requires Valid(parent) && i < |parent|
  {
    var rank :| Ranked(parent, rank);
    RootBy(parent, rank, i)
  }

  lemma RootIsRootBy(parent: seq<nat>, rank: seq<nat>, i: nat)
    requires Ranked(parent, rank) && i < |parent|
    ensures Root(parent, i) == RootBy(parent, rank, i)
  {
    var r :| Ranked(parent, r) && Root(parent, i) == RootBy(parent, r, i);
    RootByIndependent(parent, r, rank, i);
  }

  /** `x` and `y` are in the same component. */
  ghost predicate Same(parent: seq<nat>, x: nat, y: nat)
    requires Valid(parent) && x < |parent| && y < |parent|
  {
    Root(parent, x) == Root(parent, y)
  }

  /** `UnionFind(n)`: every node its own parent, so every node its own
      component. */
  function Init(n: nat): (parent: seq<nat>)
    ensures |parent| == n && Valid(parent)
    ensures forall x :: 0 <= x < n ==> Root(parent, x) == x
  {
    var parent := seq(n, i => i);
    var rank := seq(n, i => 0);
    assert Ranked(parent, rank);
    forall x | 0 <= x < n
      ensures Root(parent, x) == x
    {
      RootIsRootBy(parent, rank, x);
    }
    parent
  }

  /** One halving step, `parent[i] = parent[parent[i]]`, keeps the ranking and
      changes the root of no node. */
  lemma HalvingKeepsRoots(parent: seq<nat>, rank: seq<nat>, i: nat)
    requires Ranked(parent, rank) && i < |parent|
    ensures Ranked(parent[i := parent[parent[i]]], rank)
    ensures forall x :: 0 <= x < |parent| ==>
      RootBy(parent[i := parent[parent[i]]], rank, x) == RootBy(parent, rank, x)
  {
    var halved := parent[i := parent[parent[i]]];
    assert Ranked(halved, rank);
    forall x | 0 <= x < |parent|
      ensures RootBy(halved, rank, x) == RootBy(parent, rank, x)
    {
      HalvingKeepsRoot(parent, rank, i, x);
    }
  }

  lemma {:induction false} HalvingKeepsRoot(parent: seq<nat>, rank: seq<nat>, i: nat, x: nat)
    requires Ranked(parent, rank) && i < |parent| && x < |parent|
    requires Ranked(parent[i := parent[parent[i]]], rank)
    ensures RootBy(parent[i := parent[parent[i]]], rank, x) == RootBy(parent, rank, x)
    decreases MaxRank(rank) - rank[x]
  {
    var halved := parent[i := parent[parent[i]]];
    if halved[x] != x {
      HalvingKeepsRoot(parent, rank, i, halved[x]);
      if x == i && parent[i] != i {
        assert RootBy(parent, rank, i) == RootBy(parent, rank, parent[i]);
      }
    }
  }

  /** `find(i)`: walks from `i` to its root, halving the path on the way.
      It terminates, returns the root of `i`'s tree, which is its own parent,
      and leaves every node's root where it was. */
  method Find(parent: seq<nat>, i: nat) returns (root: nat, parent': seq<nat>)
    requires Valid(parent) && i < |parent|
    ensures |parent'| == |parent| && Valid(parent')
    ensures root < |parent'| && parent'[root] == root
    ensures root == Root(parent, i)
    ensures forall x :: 0 <= x < |parent| ==> Root(parent', x) == Root(parent, x)
  {
    ghost var rank :| Ranked(parent, rank);
    parent' := parent;
    var j: nat := i;
    while parent'[j] != j
      invariant |parent'| == |parent| && j < |parent'|
      invariant Ranked(parent', rank)
      invariant RootBy(parent', rank, j) == RootBy(parent, rank, i)
      invariant forall x :: 0 <= x < |parent| ==> RootBy(parent', rank, x) == RootBy(parent, rank, x)
      decreases MaxRank(rank) - rank[j]
    {
      HalvingKeepsRoots(parent', rank, j);
      parent' := parent'[j := parent'[parent'[j]]];
      j := parent'[j];
    }
    root := j;
    RootIsRootBy(parent, rank, i);
    forall x | 0 <= x < |parent|
      ensures Root(parent', x) == Root(parent, x)
    {
      RootIsRootBy(parent, rank, x);
      RootIsRootBy(parent', rank, x);
    }
  }

  /** Hanging root `b` under root `a` keeps a forest, and moves exactly the
      nodes of `b`'s tree to `a`'s root. */
  lemma LinkRoots(parent: seq<nat>, rank: seq<nat>, a: nat, b: nat)
    requires Ranked(parent, rank) && a < |parent| && b < |parent|
    requires parent[a] == a && parent[b] == b && a != b
    ensures Ranked(parent[b := a], rank[a := if rank[a] > rank[b] then rank[a] else rank[b] + 1])
    ensures forall x :: 0 <= x < |parent| ==>
      RootBy(parent[b := a], rank[a := if rank[a] > rank[b] then rank[a] else rank[b] + 1], x)
        == (if RootBy(parent, rank, x) == b then a else RootBy(parent, rank, x))
  {
    var linked := parent[b := a];
    var rank' := rank[a := if rank[a] > rank[b] then rank[a] else rank[b] + 1];
    assert Ranked(linked, rank');
    forall x | 0 <= x < |parent|
      ensures RootBy(linked, rank', x) == (if RootBy(parent, rank, x) == b then a else RootBy(parent, rank, x))
    {
      LinkRoot(parent, rank, a, b, rank', x);
    }
  }

  lemma {:induction false} LinkRoot(parent: seq<nat>, rank: seq<nat>, a: nat, b: nat, rank': seq<nat>, x: nat)
    requires Ranked(parent, rank) && a < |parent| && b < |parent| && x < |parent|
    requires parent[a] == a && parent[b] == b && a != b
    requires Ranked(parent[b := a], rank')
    ensures RootBy(parent[b := a], rank', x) == (if RootBy(parent, rank, x) == b then a else RootBy(parent, rank, x))
    decreases MaxRank(rank) - rank[x]
  {
    var linked := parent[b := a];
    if x == b {
      assert RootBy(linked, rank', b) == RootBy(linked, rank', a);
    } else if parent[x] != x {
      LinkRoot(parent, rank, a, b, rank', parent[x]);
    }
  }

  /** `union(i, j)`: afterwards `i` and `j` are in one component, the members
      of `j`'s old component now have `i`'s root, and every other node keeps
      its root, so no other components are merged. */
  method Union(parent: seq<nat>, i: nat, j: nat) returns (parent': seq<nat>)
    requires Valid(parent) && i < |parent| && j < |parent|
    ensures |parent'| == |parent| && Valid(parent')
    ensures Same(parent', i, j)
    ensures forall x :: 0 <= x < |parent| ==>
      Root(parent', x) == (if Root(parent, x) == Root(parent, j) then Root(parent, i) else Root(parent, x))
    ensures forall x, y :: 0 <= x < |parent| && 0 <= y < |parent| ==>
      (Same(parent', x, y) <==>
        || Same(parent, x, y)
        || (Same(parent, x, i) && Same(parent, y, j))
        || (Same(parent, x, j) && Same(parent, y, i)))
  {
    var pi, p1 := Find(parent, i);
    var pj, p2 := Find(p1, j);
    parent' := p2;
    if pi != pj {
      ghost var rank :| Ranked(p2, rank);
      RootIsRootBy(p2, rank, pi);
      RootIsRootBy(p2, rank, pj);
      LinkRoots(p2, rank, pi, pj);
      ghost var rank' := rank[pi := if rank[pi] > rank[pj] then rank[pi] else rank[pj] + 1];
      parent' := p2[pj := pi];
      forall x | 0 <= x < |parent|
        ensures Root(parent', x) == (if Root(parent, x) == pj then pi else Root(parent, x))
      {
        RootIsRootBy(p2, rank, x);
        RootIsRootBy(parent', rank', x);
      }
    }
  }
}
