/** Concept neighbourhood: grow a set of concepts level by level along active edges, either way. */
module Neighborhood {
  import opened Prelude

  /** An endpoint is None when it is missing or not a string; edges are the same only when their ids are. */
  datatype ConceptEdge = ConceptEdge(
    edgeId: string, source: Option<string>, target: Option<string>, edgeType: string, isActive: bool)

  datatype Subgraph = NotFound | Subgraph(nodes: set<string>, edges: seq<ConceptEdge>)

  predicate Wanted(e: ConceptEdge, types: Option<set<string>>) {
    e.isActive && (types.Some? ==> e.edgeType in types.value)
  }

  function Endpoints(e: ConceptEdge): set<string> {
    (if e.source.Some? then {e.source.value} else {}) + (if e.target.Some? then {e.target.value} else {})
  }

  /** Active, and of an allowed type where types are given. */
  ghost predicate Admitted(e: ConceptEdge, types: Option<set<string>>) {
    e.isActive && (types == None || exists allowed :: types == Some(allowed) && e.edgeType in allowed)
  }

  ghost predicate EndsAt(e: ConceptEdge, v: string) {
    e.source == Some(v) || e.target == Some(v)
  }

  /** A walk from `center`: consecutive concepts are ends of one wanted edge. */
  ghost predicate Walk(all: seq<ConceptEdge>, types: Option<set<string>>, center: string, path: seq<string>) {
    && path != [] && path[0] == center
    && forall i :: 0 < i < |path| ==> Joined(all, types, path[i - 1], path[i])
  }

  ghost predicate Joined(all: seq<ConceptEdge>, types: Option<set<string>>, u: string, v: string) {
    exists e :: e in all && Admitted(e, types) && EndsAt(e, u) && EndsAt(e, v)
  }

  /** Some walk of at most k steps ends at v. */
  ghost predicate Within(all: seq<ConceptEdge>, types: Option<set<string>>, center: string, v: string, k: int) {
    exists path :: Walk(all, types, center, path) && path[|path| - 1] == v && |path| <= k + 1
  }

  lemma WithinZero(all: seq<ConceptEdge>, types: Option<set<string>>, center: string, v: string)
    ensures Within(all, types, center, v, 0) <==> v == center
  {
    assert Walk(all, types, center, [center]);
  }

  lemma WithinStep(all: seq<ConceptEdge>, types: Option<set<string>>, center: string, u: string, v: string, k: nat)
    requires Within(all, types, center, u, k) && Joined(all, types, u, v)
    ensures Within(all, types, center, v, k + 1)
  {
    var path :| Walk(all, types, center, path) && path[|path| - 1] == u && |path| <= k + 1;
    assert Walk(all, types, center, path + [v]);
  }

  /** A concept is within k + 1 steps iff it is within k, or joined to one that is. */
  lemma WithinUnfold(all: seq<ConceptEdge>, types: Option<set<string>>, center: string, v: string, k: nat)
    ensures Within(all, types, center, v, k + 1) <==>
              Within(all, types, center, v, k) || exists u :: Within(all, types, center, u, k) && Joined(all, types, u, v)
  {
    if Within(all, types, center, v, k + 1) {
      var path :| Walk(all, types, center, path) && path[|path| - 1] == v && |path| <= k + 2;
      if |path| > 1 {
        var before := path[..|path| - 1];
        assert Walk(all, types, center, before);
        assert Within(all, types, center, before[|before| - 1], k);
      }
    }
    forall u | Within(all, types, center, u, k) && Joined(all, types, u, v) { WithinStep(all, types, center, u, v, k); }
  }

  lemma WithinGrows(all: seq<ConceptEdge>, types: Option<set<string>>, center: string, v: string, k: int, n: int)
    requires Within(all, types, center, v, k) && k <= n
    ensures Within(all, types, center, v, n)
  {
    var path :| Walk(all, types, center, path) && path[|path| - 1] == v && |path| <= k + 1;
    assert |path| <= n + 1;
  }

  ghost predicate Near(all: seq<ConceptEdge>, types: Option<set<string>>, center: string, e: ConceptEdge, k: int) {
    exists v :: EndsAt(e, v) && Within(all, types, center, v, k)
  }

  /** What is kept after k levels: the concepts within k steps, and the edges touching one nearer than that. */
  ghost predicate Level(all: seq<ConceptEdge>, types: Option<set<string>>, center: string, k: nat,
                        reached: set<string>, kept: seq<ConceptEdge>)
  {
    && (forall v :: v in reached <==> Within(all, types, center, v, k))
    && (forall i, j :: 0 <= i < j < |kept| ==> kept[i] != kept[j])
    && (forall e :: e in kept <==>
          e in all && Admitted(e, types) && Near(all, types, center, e, k - 1))
  }

  /** One level of growth, over the edges in order. */
  method Grow(all: seq<ConceptEdge>, types: Option<set<string>>, frontier: set<string>, reached: set<string>, kept: seq<ConceptEdge>)
    returns (next: set<string>, reached': set<string>, kept': seq<ConceptEdge>)
    requires forall i, j :: 0 <= i < j < |kept| ==> kept[i] != kept[j]
    requires frontier <= reached
    ensures reached' == reached + next && next !! reached
    ensures forall v :: v in next <==> v !in reached && Crossed(all, types, frontier, v)
    ensures forall i, j :: 0 <= i < j < |kept'| ==> kept'[i] != kept'[j]
    ensures forall e :: e in kept' <==> e in kept || (e in all && Wanted(e, types) && Endpoints(e) * frontier != {})
  {
    next, reached', kept' := {}, reached, kept;
    for i := 0 to |all|
      invariant reached' == reached + next && next !! reached
      invariant forall v :: v in next <==> v !in reached && Crossed(all[..i], types, frontier, v)
      invariant forall m, n :: 0 <= m < n < |kept'| ==> kept'[m] != kept'[n]
      invariant forall e :: e in kept' <==> e in kept || (e in all[..i] && Wanted(e, types) && Endpoints(e) * frontier != {})
    {
      var e := all[i];
      assert all[..i + 1] == all[..i] + [e];
      assert forall v :: Crossed(all[..i + 1], types, frontier, v) <==>
          Crossed(all[..i], types, frontier, v) || (Wanted(e, types) && v in Endpoints(e) && Endpoints(e) * frontier != {});
      if !Wanted(e, types) || Endpoints(e) * frontier == {} { continue; }
      if e !in kept' { kept' := kept' + [e]; }
      var found := Endpoints(e) - reached';
      reached', next := reached' + found, next + found;
    }
    assert all[..|all|] == all;
  }

  method GetNeighborhood(known: set<string>, all: seq<ConceptEdge>, center: string, hops: int, types: Option<set<string>>)
    returns (sub: Subgraph)
    ensures sub.NotFound? <==> center !in known
    ensures sub.Subgraph? ==> forall v :: v in sub.nodes <==> v in known && Within(all, types, center, v, Max(0, hops))
    ensures sub.Subgraph? ==> forall i, j :: 0 <= i < j < |sub.edges| ==> sub.edges[i] != sub.edges[j]
    ensures sub.Subgraph? ==> forall e :: e in sub.edges <==>
              e in all && Admitted(e, types) && Near(all, types, center, e, Max(0, hops) - 1)
  {
    if center !in known { return NotFound; }
    var n := Max(0, hops);
    var reached, kept, frontier := {center}, [], {center};
    forall v { WithinZero(all, types, center, v); }
    for k := 0 to n
      invariant Level(all, types, center, k, reached, kept)
      invariant forall v :: v in frontier <==> v in reached && !Within(all, types, center, v, k - 1)
    {
      ghost var before := reached;
      var next, reached', kept' := Grow(all, types, frontier, reached, kept);
      LevelGrows(all, types, center, k, frontier, reached, kept, next, reached', kept');
      reached, kept := reached', kept';
      if next == {} {
        LevelStays(all, types, center, k + 1, n, reached, kept);
        break;
      }
      frontier := next;
    }
    sub := Subgraph(reached * known, kept);
  }

  ghost predicate Crossed(all: seq<ConceptEdge>, types: Option<set<string>>, frontier: set<string>, v: string) {
    exists e :: e in all && Wanted(e, types) && v in Endpoints(e) && Endpoints(e) * frontier != {}
  }

  lemma CrossedMeans(all: seq<ConceptEdge>, types: Option<set<string>>, frontier: set<string>, v: string)
    ensures Crossed(all, types, frontier, v) <==> exists u :: u in frontier && Joined(all, types, u, v)
  {
    if u :| u in frontier && Joined(all, types, u, v) {
      var e :| e in all && Admitted(e, types) && EndsAt(e, u) && EndsAt(e, v);
      assert Wanted(e, types) && v in Endpoints(e) && u in Endpoints(e) * frontier;
    }
    if Crossed(all, types, frontier, v) {
      var e :| e in all && Wanted(e, types) && v in Endpoints(e) && Endpoints(e) * frontier != {};
      var u :| u in Endpoints(e) * frontier;
      assert Admitted(e, types) && EndsAt(e, u) && EndsAt(e, v);
      assert Joined(all, types, u, v);
    }
  }

  lemma ReachedGrows(all: seq<ConceptEdge>, types: Option<set<string>>, center: string, k: nat,
                     frontier: set<string>, reached: set<string>, v: string)
    requires forall u :: u in reached <==> Within(all, types, center, u, k)
    requires forall u :: u in frontier <==> u in reached && !Within(all, types, center, u, k - 1)
    ensures Within(all, types, center, v, k + 1) <==> v in reached || Crossed(all, types, frontier, v)
  {
    WithinUnfold(all, types, center, v, k);
    CrossedMeans(all, types, frontier, v);
    if v !in reached && Within(all, types, center, v, k + 1) {
      var u :| Within(all, types, center, u, k) && Joined(all, types, u, v);
      if u !in frontier {
        WithinStep(all, types, center, u, v, k - 1);
        assert false;
      }
      assert u in frontier && Joined(all, types, u, v);
    }
    if u :| u in frontier && Joined(all, types, u, v) { assert Within(all, types, center, u, k); }
  }

  lemma NearGrows(all: seq<ConceptEdge>, types: Option<set<string>>, center: string, k: nat,
                  frontier: set<string>, reached: set<string>, e: ConceptEdge)
    requires forall u :: u in reached <==> Within(all, types, center, u, k)
    requires forall u :: u in frontier <==> u in reached && !Within(all, types, center, u, k - 1)
    ensures Near(all, types, center, e, k) <==> Near(all, types, center, e, k - 1) || Endpoints(e) * frontier != {}
  {
    if Near(all, types, center, e, k) {
      var v :| EndsAt(e, v) && Within(all, types, center, v, k);
      assert v in frontier ==> v in Endpoints(e) * frontier;
    }
    if Near(all, types, center, e, k - 1) {
      var v :| EndsAt(e, v) && Within(all, types, center, v, k - 1);
      WithinGrows(all, types, center, v, k - 1, k);
    }
    if Endpoints(e) * frontier != {} {
      var v :| v in Endpoints(e) * frontier;
      assert EndsAt(e, v) && Within(all, types, center, v, k);
    }
  }

  lemma LevelGrows(all: seq<ConceptEdge>, types: Option<set<string>>, center: string, k: nat,
                   frontier: set<string>, reached: set<string>, kept: seq<ConceptEdge>,
                   next: set<string>, reached': set<string>, kept': seq<ConceptEdge>)
    requires Level(all, types, center, k, reached, kept)
    requires forall v :: v in frontier <==> v in reached && !Within(all, types, center, v, k - 1)
    requires reached' == reached + next && next !! reached
    requires forall v :: v in next <==> v !in reached && Crossed(all, types, frontier, v)
    requires forall i, j :: 0 <= i < j < |kept'| ==> kept'[i] != kept'[j]
    requires forall e :: e in kept' <==> e in kept || (e in all && Wanted(e, types) && Endpoints(e) * frontier != {})
    ensures Level(all, types, center, k + 1, reached', kept')
    ensures forall v :: v in next <==> v in reached' && !Within(all, types, center, v, k)
  {
    forall v { ReachedGrows(all, types, center, k, frontier, reached, v); }
    forall e { NearGrows(all, types, center, k, frontier, reached, e); }
  }

  /** Once a level adds no concept, later levels change nothing. */
  lemma {:induction false} LevelStays(all: seq<ConceptEdge>, types: Option<set<string>>, center: string, k: nat, n: nat,
                                      reached: set<string>, kept: seq<ConceptEdge>)
    requires 0 < k <= n && Level(all, types, center, k, reached, kept)
    requires forall v :: Within(all, types, center, v, k) ==> Within(all, types, center, v, k - 1)
    ensures Level(all, types, center, n, reached, kept)
    ensures forall v :: Within(all, types, center, v, n) ==> Within(all, types, center, v, n - 1)
    decreases n - k
  {
    if k < n {
      forall v ensures Within(all, types, center, v, k + 1) <==> Within(all, types, center, v, k) {
        WithinUnfold(all, types, center, v, k);
        forall u | Within(all, types, center, u, k) && Joined(all, types, u, v) {
          WithinStep(all, types, center, u, v, k - 1);
        }
      }
      forall v | Within(all, types, center, v, k - 1) { WithinGrows(all, types, center, v, k - 1, k); }
      forall e ensures Near(all, types, center, e, k) <==> Near(all, types, center, e, k - 1) {}
      LevelStays(all, types, center, k + 1, n, reached, kept);
    }
  }
}
