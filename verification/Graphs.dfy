/** Finite directed graphs given by predecessor lists, as `ssa.BasicBlock.Preds`
    and `compileJob.dependencies` give them: node `b` lists the nodes with an edge
    into `b`. Paths run forward along the edges. */
module Graphs {
  type Graph = seq<seq<nat>>

  ghost predicate Closed(g: Graph) {
    forall b, k :: 0 <= b < |g| && 0 <= k < |g[b]| ==> g[b][k] < |g|
  }

  predicate Edge(g: Graph, a: nat, b: nat) {
    b < |g| && a in g[b]
  }

  /** A non-empty walk along the edges. */
  ghost predicate IsPath(g: Graph, p: seq<nat>) {
    && p != []
    && (forall i :: 0 <= i < |p| ==> p[i] < |g|)
    && (forall i :: 0 <= i < |p| - 1 ==> Edge(g, p[i], p[i + 1]))
  }

  ghost predicate PathFromTo(g: Graph, p: seq<nat>, a: nat, b: nat) {
    IsPath(g, p) && p[0] == a && p[|p| - 1] == b
  }

  ghost predicate Reaches(g: Graph, a: nat, b: nat) {
    exists p :: PathFromTo(g, p, a, b)
  }

  /** A walk of at least one edge leads from `b` back to `b`. */
  ghost predicate OnCycle(g: Graph, b: nat) {
    exists p :: PathFromTo(g, p, b, b) && |p| > 1
  }

  ghost predicate Acyclic(g: Graph) {
    forall b :: 0 <= b < |g| ==> !OnCycle(g, b)
  }

  lemma ReachesSelf(g: Graph, a: nat)
    requires a < |g|
    ensures Reaches(g, a, a)
  {
    assert PathFromTo(g, [a], a, a);
  }

  lemma PrependEdge(g: Graph, a: nat, p: seq<nat>)
    requires IsPath(g, p) && a < |g| && Edge(g, a, p[0])
    ensures PathFromTo(g, [a] + p, a, p[|p| - 1])
  {
    var q := [a] + p;
    assert forall i :: 0 <= i < |q| - 1 ==> Edge(g, q[i], q[i + 1]);
  }

  lemma ReachesPrepend(g: Graph, a: nat, b: nat, c: nat)
    requires a < |g| && Edge(g, a, b) && Reaches(g, b, c)
    ensures Reaches(g, a, c)
  {
    var p :| PathFromTo(g, p, b, c);
    PrependEdge(g, a, p);
  }

  lemma SubPath(g: Graph, p: seq<nat>, i: nat, j: nat)
    requires IsPath(g, p) && i <= j < |p|
    ensures PathFromTo(g, p[i..j + 1], p[i], p[j])
  {
    var q := p[i..j + 1];
    forall k | 0 <= k < |q| - 1
      ensures Edge(g, q[k], q[k + 1])
    {
      assert Edge(g, p[i + k], p[i + k + 1]);
    }
  }

  lemma AppendEdge(g: Graph, p: seq<nat>, b: nat)
    requires IsPath(g, p) && b < |g| && Edge(g, p[|p| - 1], b)
    ensures PathFromTo(g, p + [b], p[0], b)
  {
    var q := p + [b];
    assert forall i :: 0 <= i < |q| - 1 ==> Edge(g, q[i], q[i + 1]);
  }

  /** A block that lies on no cycle is visited at most once by any walk. */
  lemma OffCycleVisitedOnce(g: Graph, p: seq<nat>, b: nat)
    requires IsPath(g, p) && !OnCycle(g, b)
    ensures forall i, j :: 0 <= i < j < |p| ==> !(p[i] == b && p[j] == b)
  {
    forall i, j | 0 <= i < j < |p| && p[i] == b && p[j] == b
      ensures false
    {
      SubPath(g, p, i, j);
    }
  }
}
