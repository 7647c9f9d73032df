/** Finite directed graphs over names: walks, cycles, and the source that an acyclic one must have. */
module Digraph {
  type Edges = set<(string, string)>

  ghost predicate Hop(edges: Edges, walk: seq<string>, i: int)
    requires 0 <= i < |walk| - 1
  {
    (walk[i], walk[i + 1]) in edges
  }

  ghost predicate WalkIn(edges: Edges, within: set<string>, walk: seq<string>) {
    && (forall i :: 0 <= i < |walk| ==> walk[i] in within)
    && (forall i :: 0 <= i < |walk| - 1 ==> Hop(edges, walk, i))
  }

  ghost predicate CycleIn(edges: Edges, within: set<string>, walk: seq<string>) {
    |walk| > 1 && walk[0] == walk[|walk| - 1] && WalkIn(edges, within, walk)
  }

  ghost predicate Acyclic(edges: Edges, within: set<string>) {
    forall walk :: !CycleIn(edges, within, walk)
  }

  ghost predicate HasPredecessor(edges: Edges, within: set<string>, t: string) {
    exists src :: src in within && (src, t) in edges
  }

  /** Every member has a predecessor among the members. */
  ghost predicate NoSource(edges: Edges, within: set<string>) {
    forall t :: t in within ==> HasPredecessor(edges, within, t)
  }

  lemma {:induction false} BackWalk(edges: Edges, within: set<string>, start: string, n: nat) returns (walk: seq<string>)
    requires NoSource(edges, within) && start in within
    ensures |walk| == n + 1 && WalkIn(edges, within, walk)
  {
    if n == 0 {
      walk := [start];
    } else {
      var rest := BackWalk(edges, within, start, n - 1);
      assert HasPredecessor(edges, within, rest[0]);
      var src :| src in within && (src, rest[0]) in edges;
      walk := [src] + rest;
      forall i | 0 <= i < |walk| - 1 ensures Hop(edges, walk, i) {
        if i > 0 { assert Hop(edges, rest, i - 1); }
      }
    }
  }

  /** More places than names: two places carry one name. */
  lemma {:induction false} Pigeonhole(walk: seq<string>, names: set<string>) returns (i: nat, j: nat)
    requires |walk| > |names| && forall k :: 0 <= k < |walk| ==> walk[k] in names
    ensures i < j < |walk| && walk[i] == walk[j]
    decreases |names|
  {
    var last := |walk| - 1;
    if k :| 0 <= k < last && walk[k] == walk[last] {
      i, j := k, last;
    } else {
      i, j := Pigeonhole(walk[..last], names - {walk[last]});
    }
  }

  lemma NoSourceHasCycle(edges: Edges, within: set<string>) returns (cycle: seq<string>)
    requires NoSource(edges, within) && within != {}
    ensures CycleIn(edges, within, cycle)
  {
    var start :| start in within;
    var walk := BackWalk(edges, within, start, |within|);
    var i, j := Pigeonhole(walk, within);
    cycle := walk[i..j + 1];
    forall k | 0 <= k < |cycle| - 1 ensures Hop(edges, cycle, k) {
      assert Hop(edges, walk, i + k);
    }
  }

  lemma CycleInLarger(edges: Edges, part: set<string>, within: set<string>, cycle: seq<string>)
    requires CycleIn(edges, part, cycle) && part <= within
    ensures CycleIn(edges, within, cycle)
  {
  }

  /** An acyclic graph has, in every nonempty part, a node without predecessors in that part. */
  lemma AcyclicHasSource(edges: Edges, within: set<string>, part: set<string>) returns (source: string)
    requires Acyclic(edges, within) && part <= within && part != {}
    ensures source in part && forall src :: (src, source) in edges ==> src !in part
  {
    if NoSource(edges, part) {
      var cycle := NoSourceHasCycle(edges, part);
      CycleInLarger(edges, part, within, cycle);
      assert false;
    }
    source :| source in part && !HasPredecessor(edges, part, source);
  }

  /** Each node of a cycle has a predecessor on the cycle. */
  lemma CyclePredecessor(edges: Edges, within: set<string>, cycle: seq<string>, task: string) returns (src: string)
    requires CycleIn(edges, within, cycle) && task in cycle
    ensures src in cycle && (src, task) in edges
  {
    var k :| 0 <= k < |cycle| && cycle[k] == task;
    var before := if k == 0 then |cycle| - 2 else k - 1;
    assert Hop(edges, cycle, before);
    src := cycle[before];
  }

  lemma FewerEdgesFewerCycles(fewer: Edges, more: Edges, within: set<string>, whole: set<string>)
    requires fewer <= more && within <= whole && Acyclic(more, whole)
    ensures Acyclic(fewer, within)
  {
    forall walk ensures !CycleIn(fewer, within, walk) {
      assert !CycleIn(more, whole, walk);
      if CycleIn(fewer, within, walk) {
        forall i | 0 <= i < |walk| - 1 ensures Hop(more, walk, i) { assert Hop(fewer, walk, i); }
        assert false;
      }
    }
  }
}
