/** `isInLoop` of the defer lowering: a backwards search over predecessor lists. */
module LoopAnalysis {
  import opened Graphs

  /** Every predecessor of `b` has been checked and none of them is `start`. */
  ghost predicate Scanned(g: Graph, start: nat, b: nat, checked: set<nat>) {
    b < |g| && forall k :: 0 <= k < |g[b]| ==> g[b][k] != start && g[b][k] in checked
  }

  /** What the search knows between two queue pops; `current` is the block whose
      predecessors are being scanned, if any. */
  ghost predicate SearchInv(g: Graph, start: nat, queue: seq<nat>, checked: set<nat>, current: set<nat>) {
    && (forall q :: q in queue ==> q == start || q in checked)
    && (forall b :: b in checked ==> b < |g| && Reaches(g, b, start))
    && (forall b :: b in checked + {start} ==>
          b in current || b in queue || Scanned(g, start, b, checked))
  }

  ghost function Work(g: Graph, queue: seq<nat>, checked: set<nat>): int {
    2 * (|g| - |checked|) + |queue|
  }

  /** The search answers whether some non-empty walk leads from `start` back to itself. */
  method IsInLoop(g: Graph, start: nat) returns (inLoop: bool)
    requires Closed(g) && start < |g|
    ensures inLoop <==> OnCycle(g, start)
  {
    hide Reaches, OnCycle, SearchInv, Scanned;
    var queue := [start];
    var checked: set<nat> := {};
    SearchStarts(g, start);
    while |queue| > 0
      invariant SearchInv(g, start, queue, checked, {})
      decreases Work(g, queue, checked)
    {
      // Pop a block off the queue and search through its predecessors.
      var block := queue[|queue| - 1];
      PopBlock(g, start, queue, checked);
      queue := queue[..|queue| - 1];
      var k := 0;
      ghost var work := Work(g, queue, checked);
      while k < |g[block]|
        invariant 0 <= k <= |g[block]|
        invariant SearchInv(g, start, queue, checked, {block})
        invariant forall j :: 0 <= j < k ==> g[block][j] != start && g[block][j] in checked
        invariant Work(g, queue, checked) <= work
      {
        var pred := g[block][k];
        if pred == start {
          CycleFound(g, start, block);
          return true;
        }
        if pred !in checked {
          AddPred(g, start, queue, checked, block, pred);
          queue := queue + [pred];
          checked := checked + {pred};
        }
        k := k + 1;
      }
      BlockScanned(g, start, queue, checked, block);
    }
    SearchEnds(g, start, checked);
    NoCycle(g, start, checked);
    return false;
  }

  lemma SearchStarts(g: Graph, start: nat)
    requires start < |g|
    ensures SearchInv(g, start, [start], {}, {})
  {
  }

  lemma SearchEnds(g: Graph, start: nat, checked: set<nat>)
    requires SearchInv(g, start, [], checked, {})
    ensures forall b :: b in checked + {start} ==> Scanned(g, start, b, checked)
  {
  }

  lemma BlockScanned(g: Graph, start: nat, queue: seq<nat>, checked: set<nat>, block: nat)
    requires block < |g| && SearchInv(g, start, queue, checked, {block})
    requires forall j :: 0 <= j < |g[block]| ==> g[block][j] != start && g[block][j] in checked
    ensures SearchInv(g, start, queue, checked, {}) && |checked| <= |g|
  {
    CheckedBound(|g|, checked);
    assert Scanned(g, start, block, checked);
  }

  lemma PopBlock(g: Graph, start: nat, queue: seq<nat>, checked: set<nat>)
    requires start < |g| && queue != [] && SearchInv(g, start, queue, checked, {})
    ensures var block := queue[|queue| - 1];
      block < |g| && Reaches(g, block, start) && SearchInv(g, start, queue[..|queue| - 1], checked, {block})
  {
    ReachesSelf(g, start);
    assert queue[|queue| - 1] in queue;
    assert forall b :: b in queue ==> b == queue[|queue| - 1] || b in queue[..|queue| - 1];
  }

  lemma AddPred(g: Graph, start: nat, queue: seq<nat>, checked: set<nat>, block: nat, pred: nat)
    requires Closed(g) && Edge(g, pred, block) && Reaches(g, block, start)
    requires SearchInv(g, start, queue, checked, {block})
    ensures SearchInv(g, start, queue + [pred], checked + {pred}, {block})
  {
    ReachesPrepend(g, pred, block, start);
    forall b | b in checked + {pred} + {start}
      ensures b == block || b in queue + [pred] || Scanned(g, start, b, checked + {pred})
    {
    }
  }

  lemma CheckedBound(n: nat, checked: set<nat>)
    requires forall b :: b in checked ==> b < n
    ensures |checked| <= n
  {
    if n == 0 {
      assert checked == {};
    } else {
      CheckedBound(n - 1, checked - {n - 1});
    }
  }

  lemma CycleFound(g: Graph, start: nat, block: nat)
    requires start < |g| && Edge(g, start, block) && Reaches(g, block, start)
    ensures OnCycle(g, start)
  {
    var p :| PathFromTo(g, p, block, start);
    PrependEdge(g, start, p);
  }

  lemma NoCycle(g: Graph, start: nat, checked: set<nat>)
    requires start < |g|
    requires forall b :: b in checked + {start} ==> Scanned(g, start, b, checked)
    ensures !OnCycle(g, start)
  {
    forall p | PathFromTo(g, p, start, start) && |p| > 1
      ensures false
    {
      StaysInside(g, start, checked, p, 1);
    }
  }

  /** Walking backwards from `start` never leaves the checked set. */
  lemma StaysInside(g: Graph, start: nat, checked: set<nat>, p: seq<nat>, i: nat)
    requires IsPath(g, p) && p[|p| - 1] == start && i < |p|
    requires forall b :: b in checked + {start} ==> Scanned(g, start, b, checked)
    ensures p[i] in checked + {start}
    decreases |p| - i
  {
    if i < |p| - 1 {
      StaysInside(g, start, checked, p, i + 1);
      assert Edge(g, p[i], p[i + 1]);
    }
  }
}
